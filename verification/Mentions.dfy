/**
 Mention tokens in a text: what the regular expression
 <@(user|team|everyone):([a-z0-9-]+)?\|([^>]+)>, global and ignoring case,
 finds, how `parseMentions` collects it and `renderMentions` replaces it.
 */
module Mentions {
  import opened Common

  datatype TargetType = USER | TEAM | EVERYONE

  /** The three groups of a match; `word` as it is written. */
  datatype Token = Token(word: string, id: Option<string>, caption: string)

  datatype Mention = Mention(target: TargetType, id: Option<string>, caption: string)

  // ------------------------------------------------------------- the language

  function Lower(c: char): char {
    if 'A' <= c <= 'Z' then ((c as int) + 32) as char else c
  }

  predicate SameIgnoringCase(s: string, lower: string) {
    |s| == |lower| && forall i | 0 <= i < |s| :: Lower(s[i]) == lower[i]
  }

  predicate IsWord(s: string) {
    SameIgnoringCase(s, "user") || SameIgnoringCase(s, "team") || SameIgnoringCase(s, "everyone")
  }

  predicate IsIdChar(c: char) {
    'a' <= Lower(c) <= 'z' || '0' <= c <= '9' || c == '-'
  }

  const LOWER_LETTERS := "abcdefghijklmnopqrstuvwxyz"
  const UPPER_LETTERS := "ABCDEFGHIJKLMNOPQRSTUVWXYZ"

  predicate IsUpper(c: char) {
    c in UPPER_LETTERS
  }

  predicate IsLower(c: char) {
    c in LOWER_LETTERS
  }

  lemma UpperRange(c: char)
    ensures IsUpper(c) <==> 'A' <= c <= 'Z'
  {
    if 'A' <= c <= 'Z' { assert UPPER_LETTERS[c as int - 65] == c; }
  }

  lemma LowerRange(c: char)
    ensures IsLower(c) <==> 'a' <= c <= 'z'
  {
    if 'a' <= c <= 'z' { assert LOWER_LETTERS[c as int - 97] == c; }
  }

  /** Case is folded for the letters of the two alphabets, back and forth and in order, and for nothing else. */
  lemma CaseTable(c: char, d: char)
    ensures IsUpper(c) ==> IsLower(Lower(c)) && Upper(Lower(c)) == c
    ensures IsUpper(c) && IsUpper(d) && c < d ==> Lower(c) < Lower(d)
    ensures !IsUpper(c) ==> Lower(c) == c
    ensures !IsLower(c) ==> Upper(c) == c
  {
    hide IsUpper, IsLower;
    UpperRange(c);
    UpperRange(d);
    LowerRange(c);
    LowerRange(Lower(c));
  }

  /** The characters of an identifier are the letters of both cases, the digits and '-'. */
  lemma IdCharTable(c: char)
    ensures IsIdChar(c) <==> IsLower(c) || IsUpper(c) || c in "0123456789-"
  {
    hide IsUpper, IsLower;
    UpperRange(c);
    LowerRange(c);
    if '0' <= c <= '9' { assert "0123456789-"[c as int - 48] == c; }
  }

  predicate WellFormed(t: Token) {
    && IsWord(t.word)
    && (t.id.Some? ==> t.id.value != "" && forall c | c in t.id.value :: IsIdChar(c))
    && t.caption != "" && '>' !in t.caption
  }

  function IdText(t: Token): string {
    if t.id.Some? then t.id.value else ""
  }

  /** The token as text. */
  function Written(t: Token): (s: string)
    ensures |s| >= 5
  {
    "<@" + t.word + ":" + IdText(t) + "|" + t.caption + ">"
  }

  // -------------------------------------------------------------- the matcher

  predicate HeadFits(s: string, lower: string) {
    |s| >= |lower| + 3 && s[..2] == "<@" && SameIgnoringCase(s[2..2 + |lower|], lower) && s[2 + |lower|] == ':'
  }

  /** The first group, if the text starts with an opening. */
  function HeadWord(s: string): Option<string> {
    if HeadFits(s, "user") then Some(s[2..6])
    else if HeadFits(s, "team") then Some(s[2..6])
    else if HeadFits(s, "everyone") then Some(s[2..10])
    else None
  }

  /** How many identifier characters the text starts with. */
  function IdRun(s: string): (n: nat)
    ensures n <= |s| && (forall i | 0 <= i < n :: IsIdChar(s[i])) && (n < |s| ==> !IsIdChar(s[n]))
  {
    if s == "" || !IsIdChar(s[0]) then 0 else 1 + IdRun(s[1..])
  }

  /** How many characters come before the first '>'. */
  function LabelRun(s: string): (n: nat)
    ensures n <= |s| && (forall i | 0 <= i < n :: s[i] != '>') && (n < |s| ==> s[n] == '>')
  {
    if s == "" || s[0] == '>' then 0 else 1 + LabelRun(s[1..])
  }

  /**
   `id` and what follows it: no backtracking, for '|' is no identifier character
   and a caption ends at the first '>'.
   */
  function MatchTail(word: string, s: string): Option<Token> {
    var n := IdRun(s);
    if n == |s| || s[n] != '|' then None
    else
      var rest := s[n + 1..];
      var m := LabelRun(rest);
      if m == 0 || m == |rest| then None
      else Some(Token(word, if n == 0 then None else Some(s[..n]), rest[..m]))
  }

  /** The match that starts where `s` starts. */
  function Match(s: string): Option<Token> {
    var word := HeadWord(s);
    if word.None? then None else MatchTail(word.value, s[|word.value| + 3..])
  }

  function TailText(t: Token): string {
    IdText(t) + "|" + t.caption + ">"
  }

  lemma HeadWordIsExact(s: string, word: string)
    ensures HeadWord(s) == Some(word) <==> IsWord(word) && "<@" + word + ":" <= s
  {
    var head := "<@" + word + ":";
    if HeadWord(s) == Some(word) {
      assert s[..|word| + 3] == head;
    }
    if IsWord(word) && head <= s {
      assert s[..2] == head[..2] && s[2..2 + |word|] == head[2..2 + |word|] && s[2 + |word|] == head[2 + |word|];
      FitsOneWord(s, word);
    }
  }

  /** The three words are told apart by their letters. */
  lemma FitsOneWord(s: string, word: string)
    requires IsWord(word) && |s| >= |word| + 3
    requires s[..2] == "<@" && s[2..2 + |word|] == word && s[2 + |word|] == ':'
    ensures HeadWord(s) == Some(word)
  {
    assert word[0] == s[2];
    assert HeadFits(s, "user") ==> Lower(s[2..6][0]) == 'u';
    assert HeadFits(s, "team") ==> Lower(s[2..6][0]) == 't';
    assert HeadFits(s, "everyone") ==> Lower(s[2..10][0]) == 'e';
  }

  lemma MatchTailIsExact(word: string, s: string, t: Token)
    requires t.word == word && IsWord(word)
    ensures MatchTail(word, s) == Some(t) <==> WellFormed(t) && TailText(t) <= s
  {
    if MatchTail(word, s) == Some(t) { TailIsWritten(word, s, t); }
    if WellFormed(t) && TailText(t) <= s { TailIsFound(word, s, t); }
  }

  lemma TailIsWritten(word: string, s: string, t: Token)
    requires IsWord(word) && MatchTail(word, s) == Some(t)
    ensures WellFormed(t) && TailText(t) <= s
  {
    var n := IdRun(s);
    var rest := s[n + 1..];
    var m := LabelRun(rest);
    assert s[..n] == IdText(t) && t.caption == rest[..m];
    SplitTail(s, n, m);
  }

  lemma SplitTail(s: string, n: nat, m: nat)
    requires n + 1 + m < |s| && s[n] == '|' && s[n + 1..][m] == '>'
    ensures s[..n] + "|" + s[n + 1..][..m] + ">" <= s
  {
    var front := s[..n] + "|" + s[n + 1..][..m] + ">";
    assert forall i | 0 <= i < |front| :: front[i] == s[i];
    assert front == s[..|front|];
  }

  lemma TailIsFound(word: string, s: string, t: Token)
    requires t.word == word && WellFormed(t) && TailText(t) <= s
    ensures MatchTail(word, s) == Some(t)
  {
    CutTail(IdText(t), t.caption, s);
    RunsEnd(IdText(t), t.caption, s);
  }

  lemma RunsEnd(id: string, caption: string, s: string)
    requires |id| + 1 + |caption| < |s| && s[..|id|] == id && s[|id|] == '|'
    requires s[|id| + 1..][..|caption|] == caption && s[|id| + 1..][|caption|] == '>'
    requires (forall c | c in id :: IsIdChar(c)) && '>' !in caption
    ensures IdRun(s) == |id| && LabelRun(s[|id| + 1..]) == |caption|
  {
    var rest := s[|id| + 1..];
    assert forall i | 0 <= i < |id| :: s[i] == id[i];
    IdRunIs(s, |id|);
    assert forall i | 0 <= i < |caption| :: rest[i] == caption[i];
    LabelRunIs(rest, |caption|);
  }

  lemma CutTail(id: string, caption: string, s: string)
    requires id + "|" + caption + ">" <= s
    ensures |id| + 1 + |caption| < |s| && s[..|id|] == id && s[|id|] == '|'
    ensures var rest := s[|id| + 1..]; rest[..|caption|] == caption && rest[|caption|] == '>'
  {
    var tail := id + "|" + caption + ">";
    assert s[..|tail|] == tail;
    assert s[..|id|] == tail[..|id|] && s[|id| + 1..][..|caption|] == tail[|id| + 1..|id| + 1 + |caption|];
  }

  lemma IdRunIs(s: string, k: nat)
    requires k < |s| && (forall i | 0 <= i < k :: IsIdChar(s[i])) && !IsIdChar(s[k])
    ensures IdRun(s) == k
  {
  }

  lemma LabelRunIs(s: string, k: nat)
    requires k < |s| && (forall i | 0 <= i < k :: s[i] != '>') && s[k] == '>'
    ensures LabelRun(s) == k
  {
  }

  /** The matcher recognises exactly the well-formed tokens, and at one place at most one. */
  lemma MatchIsExact(s: string, t: Token)
    ensures Match(s) == Some(t) <==> WellFormed(t) && Written(t) <= s
  {
    hide HeadWord, MatchTail, IsWord;
    var head := "<@" + t.word + ":";
    HeadWordIsExact(s, t.word);
    TokenSplits(s, head, t);
    if Match(s) == Some(t) { WordKept(s, t); }
    if HeadWord(s) == Some(t.word) { MatchTailIsExact(t.word, s[|head|..], t); }
  }

  lemma WordKept(s: string, t: Token)
    requires Match(s) == Some(t)
    ensures HeadWord(s) == Some(t.word)
  {
    hide HeadWord;
  }

  /** A token is written at the front of a text when its opening is, and its tail behind that. */
  lemma TokenSplits(s: string, head: string, t: Token)
    requires head == "<@" + t.word + ":"
    ensures Written(t) <= s <==> head <= s && TailText(t) <= s[|head|..]
  {
    assert Written(t) == head + TailText(t);
    if Written(t) <= s { assert head <= Written(t) <= s; assert s[|head|..][..|TailText(t)|] == TailText(t); }
    if head <= s && TailText(t) <= s[|head|..] { assert s == head + s[|head|..]; }
  }

  // ------------------------------------------------------------- segmentation

  /** A text is a sequence of characters outside of mentions and of mentions. */
  datatype Piece = Char(c: char) | Found(token: Token)

  function PieceText(p: Piece): (s: string)
    ensures s != ""
  {
    match p
    case Char(c) => [c]
    case Found(t) => Written(t)
  }

  function Write(ps: seq<Piece>): string {
    if ps == [] then "" else PieceText(ps[0]) + Write(ps[1..])
  }

  /** Left to right, a mention wherever one starts. */
  function Scan(s: string): seq<Piece>
    decreases |s|
  {
    if s == "" then []
    else
      match Match(s)
      case None => [Char(s[0])] + Scan(s[1..])
      case Some(t) =>
        MatchIsExact(s, t);
        [Found(t)] + Scan(s[|Written(t)|..])
  }

  /** Every mention is well-formed and every other character starts none. */
  ghost predicate Leftmost(ps: seq<Piece>) {
    ps != [] ==>
      && (if ps[0].Char? then Match(Write(ps)).None? else WellFormed(ps[0].token))
      && Leftmost(ps[1..])
  }

  lemma CharInFront(s: string, rest: seq<Piece>)
    requires s != "" && Match(s).None? && Write(rest) == s[1..] && Leftmost(rest)
    ensures Write([Char(s[0])] + rest) == s && Leftmost([Char(s[0])] + rest)
  {
    hide Match;
    assert ([Char(s[0])] + rest)[1..] == rest;
    assert s == [s[0]] + s[1..];
  }

  lemma TokenInFront(s: string, t: Token, rest: seq<Piece>)
    requires WellFormed(t) && Written(t) <= s && Write(rest) == s[|Written(t)|..] && Leftmost(rest)
    ensures Write([Found(t)] + rest) == s && Leftmost([Found(t)] + rest)
  {
    hide WellFormed, Written;
    assert ([Found(t)] + rest)[1..] == rest;
    assert s == Written(t) + s[|Written(t)|..];
  }

  /** The pieces are the text, none lost and none overlapping, and no mention is missed in between. */
  lemma {:induction false} ScanIsLeftmost(s: string)
    ensures Write(Scan(s)) == s && Leftmost(Scan(s))
    decreases |s|
  {
    hide Match, Written, WellFormed, Leftmost, Write;
    if s == "" {
      NothingToScan();
    } else {
      match Match(s)
      case None =>
        ScanIsLeftmost(s[1..]);
        CharInFront(s, Scan(s[1..]));
      case Some(t) =>
        MatchIsExact(s, t);
        ScanIsLeftmost(s[|Written(t)|..]);
        TokenInFront(s, t, Scan(s[|Written(t)|..]));
    }
  }

  lemma NothingToScan()
    ensures Write([]) == "" && Leftmost([])
  {
  }

  lemma {:induction false} LeftmostIsScanned(ps: seq<Piece>)
    requires Leftmost(ps)
    ensures Scan(Write(ps)) == ps
    decreases |ps|
  {
    hide Match, Written, WellFormed;
    if ps == [] {
    } else {
      LeftmostIsScanned(ps[1..]);
      ScanFirstPiece(ps[0], Write(ps[1..]));
      assert ps == [ps[0]] + ps[1..];
    }
  }

  /**
   Writing and scanning again gives the pieces back exactly when they are a
   leftmost segmentation; there is one for each text.
   */
  lemma ScanWrittenExactly(ps: seq<Piece>)
    ensures Scan(Write(ps)) == ps <==> Leftmost(ps)
  {
    hide Match, Scan;
    ScanIsLeftmost(Write(ps));
    if Leftmost(ps) { LeftmostIsScanned(ps); }
  }

  lemma ScanFirstPiece(p: Piece, rest: string)
    requires if p.Char? then Match([p.c] + rest).None? else WellFormed(p.token)
    ensures Scan(PieceText(p) + rest) == [p] + Scan(rest)
  {
    hide Match, WellFormed;
    var s := PieceText(p) + rest;
    assert s[|PieceText(p)|..] == rest;
    if p.Found? { MatchIsExact(s, p.token); }
  }

  /** Tokens between stretches of text that hold no '<'. */
  predicate Plain(ps: seq<Piece>) {
    forall p | p in ps :: if p.Char? then p.c != '<' else WellFormed(p.token)
  }

  lemma NoOpening(c: char, s: string)
    requires c != '<'
    ensures Match([c] + s).None?
  {
    var text := [c] + s;
    if |text| >= 2 { assert text[..2][0] == c; }
  }

  lemma {:induction false} PlainIsLeftmost(ps: seq<Piece>)
    requires Plain(ps)
    ensures Leftmost(ps)
    decreases |ps|
  {
    if ps == [] {
    } else {
      assert forall p | p in ps[1..] :: p in ps;
      PlainIsLeftmost(ps[1..]);
      if ps[0].Char? {
        assert ps[0] in ps;
        NoOpening(ps[0].c, Write(ps[1..]));
      }
    }
  }

  /** What was written with well-formed tokens and '<'-free text is read back exactly. */
  lemma PlainRoundTrip(ps: seq<Piece>)
    requires Plain(ps)
    ensures Scan(Write(ps)) == ps
  {
    PlainIsLeftmost(ps);
    ScanWrittenExactly(ps);
  }

  // ------------------------------------------------------------------- parsing

  function Upper(c: char): char {
    if 'a' <= c <= 'z' then ((c as int) - 32) as char else c
  }

  function ToUpperCase(s: string): string {
    seq(|s|, i requires 0 <= i < |s| => Upper(s[i]))
  }

  function ToMention(t: Token): Mention {
    var rawType := ToUpperCase(t.word);
    Mention(if rawType == "EVERYONE" then EVERYONE else if rawType == "TEAM" then TEAM else USER, t.id, t.caption)
  }

  /** The mentions among the pieces, in order. */
  function MentionsIn(ps: seq<Piece>): seq<Mention> {
    if ps == [] then []
    else (if ps[0].Found? then [ToMention(ps[0].token)] else []) + MentionsIn(ps[1..])
  }

  /** What `exec` returns, with the `lastIndex` it leaves. */
  datatype Hit = Hit(index: nat, token: Token, lastIndex: nat)

  /** The first match from `lastIndex` on. */
  function Exec(text: string, lastIndex: nat): (r: Option<Hit>)
    requires lastIndex <= |text|
    ensures r.Some? ==> lastIndex <= r.value.index < r.value.lastIndex <= |text|
    decreases |text| - lastIndex
  {
    if lastIndex == |text| then None
    else
      match Match(text[lastIndex..])
      case None => Exec(text, lastIndex + 1)
      case Some(t) =>
        MatchIsExact(text[lastIndex..], t);
        Some(Hit(lastIndex, t, lastIndex + |Written(t)|))
  }

  function Chars(s: string): seq<Piece> {
    seq(|s|, i requires 0 <= i < |s| => Char(s[i]))
  }

  lemma {:induction false} NoMentionsInChars(s: string, ps: seq<Piece>)
    ensures MentionsIn(Chars(s) + ps) == MentionsIn(ps)
  {
    if s == "" {
      assert Chars(s) + ps == ps;
    } else {
      NoMentionsInChars(s[1..], ps);
      assert (Chars(s) + ps)[1..] == Chars(s[1..]) + ps;
    }
  }

  /** What one call of `exec` makes of the rest of the text. */
  function Stretch(text: string, from: nat): seq<Piece>
    requires from <= |text|
  {
    match Exec(text, from)
    case None => Chars(text[from..])
    case Some(h) => Chars(text[from..h.index]) + ([Found(h.token)] + Scan(text[h.lastIndex..]))
  }

  /** Characters up to the first match, the match, and the rest from where it ends. */
  lemma {:induction false} ScanFrom(text: string, from: nat)
    requires from <= |text|
    ensures Scan(text[from..]) == Stretch(text, from)
    decreases |text| - from
  {
    hide Match, Written;
    if from == |text| {
    } else if Match(text[from..]).Some? {
      ScanHere(text, from);
    } else {
      ScanFrom(text, from + 1);
      OneCharMore(text, from);
      ScanSkips(text, from);
    }
  }

  lemma ScanSkips(text: string, from: nat)
    requires from < |text| && Match(text[from..]).None?
    ensures Scan(text[from..]) == [Char(text[from])] + Scan(text[from + 1..])
  {
    hide Match, Written;
    assert text[from..][1..] == text[from + 1..];
  }

  lemma ScanHere(text: string, from: nat)
    requires from < |text| && Match(text[from..]).Some?
    ensures Scan(text[from..]) == Stretch(text, from)
  {
    hide Match, Written, WellFormed;
    var t := Match(text[from..]).value;
    MatchIsExact(text[from..], t);
    assert text[from..][|Written(t)|..] == text[from + |Written(t)|..];
    assert Exec(text, from) == Some(Hit(from, t, from + |Written(t)|));
    assert Chars(text[from..from]) == [];
  }

  lemma OneCharMore(text: string, from: nat)
    requires from < |text| && Match(text[from..]).None?
    ensures Stretch(text, from) == [Char(text[from])] + Stretch(text, from + 1)
  {
    hide Match, Written, Scan;
    var found := Exec(text, from + 1);
    assert Exec(text, from) == found;
    match found
    case None =>
      FirstChar(text, from, |text|);
      assert text[from..|text|] == text[from..] && text[from + 1..|text|] == text[from + 1..];
    case Some(h) =>
      FirstChar(text, from, h.index);
      Associate([Char(text[from])], Chars(text[from + 1..h.index]), [Found(h.token)] + Scan(text[h.lastIndex..]));
  }

  lemma FirstChar(text: string, from: nat, next: nat)
    requires from < next <= |text|
    ensures Chars(text[from..next]) == [Char(text[from])] + Chars(text[from + 1..next])
  {
  }

  lemma Associate<T>(a: seq<T>, b: seq<T>, c: seq<T>)
    ensures (a + b) + c == a + (b + c)
  {
  }

  lemma MentionsUpToMatch(s: string, t: Token, ps: seq<Piece>)
    ensures MentionsIn(Chars(s) + ([Found(t)] + ps)) == [ToMention(t)] + MentionsIn(ps)
  {
    NoMentionsInChars(s, [Found(t)] + ps);
    assert ([Found(t)] + ps)[1..] == ps;
  }

  /** The kind of a mention follows the word in any mix of cases. */
  lemma KindOfWord(t: Token)
    requires IsWord(t.word)
    ensures ToMention(t).target == EVERYONE <==> SameIgnoringCase(t.word, "everyone")
    ensures ToMention(t).target == TEAM <==> SameIgnoringCase(t.word, "team")
    ensures ToMention(t).target == USER <==> SameIgnoringCase(t.word, "user")
  {
    var u := ToUpperCase(t.word);
    assert |u| == |t.word|;
    if SameIgnoringCase(t.word, "everyone") { assert u == "EVERYONE"; }
    if SameIgnoringCase(t.word, "team") { assert u == "TEAM"; }
    if SameIgnoringCase(t.word, "user") { assert u[0] == 'U'; }
  }

  /** The mention carries the token's id and caption, and the kind its word spells in any mix of cases. */
  predicate Tells(m: Mention, t: Token) {
    && m.id == t.id && m.caption == t.caption
    && (m.target == EVERYONE <==> SameIgnoringCase(t.word, "everyone"))
    && (m.target == TEAM <==> SameIgnoringCase(t.word, "team"))
    && (m.target == USER <==> SameIgnoringCase(t.word, "user"))
  }

  /** `ms` tells the tokens among the pieces, at the positions `at`, each once and in order. */
  ghost predicate TellsAll(ms: seq<Mention>, ps: seq<Piece>, at: seq<nat>) {
    && |ms| == |at|
    && (forall k | 0 <= k < |at| :: at[k] < |ps| && ps[at[k]].Found? && Tells(ms[k], ps[at[k]].token))
    && (forall j, k | 0 <= j < k < |at| :: at[j] < at[k])
    && (forall i: nat | i < |ps| && ps[i].Found? :: i in at)
  }

  lemma TellsBehind(ms: seq<Mention>, ps: seq<Piece>, at: seq<nat>)
    requires ps != [] && TellsAll(ms, ps[1..], at)
    ensures ps[0].Char? ==> TellsAll(ms, ps, Later(at))
    ensures forall m | ps[0].Found? && Tells(m, ps[0].token) :: TellsAll([m] + ms, ps, [0] + Later(at))
  {
    hide Tells;
    var later := Later(at);
    forall k | 0 <= k < |at| ensures ps[later[k]].Found? && Tells(ms[k], ps[later[k]].token) {
      assert ps[1..][at[k]] == ps[at[k] + 1];
    }
    forall i: nat | 0 < i < |ps| && ps[i].Found? ensures i in later {
      assert ps[1..][i - 1] == ps[i];
      InLater(at, i);
    }
    forall m | ps[0].Found? && Tells(m, ps[0].token) ensures TellsAll([m] + ms, ps, [0] + later) {
      TellsFirst(m, ms, ps, later);
    }
  }

  lemma TellsFirst(m: Mention, ms: seq<Mention>, ps: seq<Piece>, later: seq<nat>)
    requires ps != [] && ps[0].Found? && Tells(m, ps[0].token) && |ms| == |later|
    requires forall k | 0 <= k < |later| ::
               0 < later[k] < |ps| && ps[later[k]].Found? && Tells(ms[k], ps[later[k]].token)
    requires forall j, k | 0 <= j < k < |later| :: later[j] < later[k]
    requires forall i: nat | 0 < i < |ps| && ps[i].Found? :: i in later
    ensures TellsAll([m] + ms, ps, [0] + later)
  {
    hide Tells;
    InFront(later);
    var all, told := [0] + later, [m] + ms;
    forall k | 0 <= k < |all| ensures all[k] < |ps| && ps[all[k]].Found? && Tells(told[k], ps[all[k]].token) {
      if k > 0 { assert all[k] == later[k - 1] && told[k] == ms[k - 1]; }
    }
    forall i: nat | i < |ps| && ps[i].Found? ensures i in all { assert i == 0 || i in later; }
  }

  /** Pieces whose tokens have one of the three words, as those of a scan have. */
  ghost predicate HaveWords(ps: seq<Piece>) {
    forall i | 0 <= i < |ps| && ps[i].Found? :: IsWord(ps[i].token.word)
  }

  lemma {:induction false} MentionsTellAll(ps: seq<Piece>) returns (at: seq<nat>)
    requires HaveWords(ps)
    ensures TellsAll(MentionsIn(ps), ps, at)
  {
    if ps == [] {
      at := [];
    } else {
      assert ps[1..] == ps[1..];
      assert forall i | 0 <= i < |ps[1..]| :: ps[1..][i] == ps[i + 1];
      at := MentionsTellAll(ps[1..]);
      if ps[0].Found? { KindOfWord(ps[0].token); }
      assert ps[0].Found? ==> Tells(ToMention(ps[0].token), ps[0].token);
      assert ps[0].Char? ==> [] + MentionsIn(ps[1..]) == MentionsIn(ps[1..]);
      hide Tells, TellsAll, ToMention;
      TellsBehind(MentionsIn(ps[1..]), ps, at);
      at := if ps[0].Found? then [0] + Later(at) else Later(at);
    }
  }

  /** `parseMentions` tells every token of the text, each once and in order, and nothing else. */
  lemma ScanTellsAll(text: string) returns (at: seq<nat>)
    ensures TellsAll(MentionsIn(Scan(text)), Scan(text), at)
  {
    hide Scan, MentionsIn, TellsAll;
    ScanIsLeftmost(text);
    LeftmostHasWords(Scan(text));
    at := MentionsTellAll(Scan(text));
  }

  lemma {:induction false} LeftmostHasWords(ps: seq<Piece>)
    requires Leftmost(ps)
    ensures HaveWords(ps)
  {
    hide Match, Write, IsWord;
    if ps != [] {
      LeftmostHasWords(ps[1..]);
      forall i | 0 <= i < |ps| && ps[i].Found? ensures IsWord(ps[i].token.word) {
        if i > 0 { assert ps[1..][i - 1] == ps[i]; }
      }
    }
  }

  /** The loop over the stateful expression; `lastIndex` starts and ends at 0 for each text. */
  method ParseMentions(text: string) returns (result: seq<Mention>)
    ensures result == MentionsIn(Scan(text))
    ensures exists at :: TellsAll(result, Scan(text), at)
  {
    hide Match, Scan, TellsAll;
    ghost var at := ScanTellsAll(text);
    result := [];
    var lastIndex := 0;
    var found := Exec(text, lastIndex);
    assert text[0..] == text;
    while found.Some?
      invariant lastIndex <= |text| && found == Exec(text, lastIndex)
      invariant result + MentionsIn(Scan(text[lastIndex..])) == MentionsIn(Scan(text))
      decreases |text| - lastIndex
    {
      var h := found.value;
      ScanFrom(text, lastIndex);
      MentionsUpToMatch(text[lastIndex..h.index], h.token, Scan(text[h.lastIndex..]));
      Associate(result, [ToMention(h.token)], MentionsIn(Scan(text[h.lastIndex..])));
      result := result + [ToMention(h.token)];
      lastIndex := h.lastIndex;
      found := Exec(text, lastIndex);
    }
    ScanFrom(text, lastIndex);
    NoMentionsInChars(text[lastIndex..], []);
    assert Chars(text[lastIndex..]) + [] == Chars(text[lastIndex..]);
  }

  // ----------------------------------------------------------------- rendering

  /** The replacement; a template prints a missing group as "undefined". */
  function Html(t: Token): string {
    "<span class=\"mention mention-" + t.word
    + "\" data-id=\"" + (if t.id.Some? then t.id.value else "undefined") + "\">\n"
    + "        @" + t.caption + "\n      </span>"
  }

  /** The pieces with each mention replaced and every other character as it was. */
  function Rendered(ps: seq<Piece>): string {
    if ps == [] then ""
    else (if ps[0].Found? then Html(ps[0].token) else [ps[0].c]) + Rendered(ps[1..])
  }

  /** `text.replace` from `from` on: the text up to the next match, its replacement, and so on. */
  function Replace(text: string, from: nat): string
    requires from <= |text|
    decreases |text| - from
  {
    match Exec(text, from)
    case None => text[from..]
    case Some(h) => text[from..h.index] + Html(h.token) + Replace(text, h.lastIndex)
  }

  function RenderMentions(text: string): string {
    Replace(text, 0)
  }

  lemma {:induction false} RenderedChars(s: string, ps: seq<Piece>)
    ensures Rendered(Chars(s) + ps) == s + Rendered(ps)
  {
    if s == "" {
      assert Chars(s) + ps == ps;
    } else {
      RenderedChars(s[1..], ps);
      assert (Chars(s) + ps)[1..] == Chars(s[1..]) + ps;
      Associate([s[0]], s[1..], Rendered(ps));
      assert s == [s[0]] + s[1..];
    }
  }

  lemma RenderedUpToMatch(s: string, t: Token, ps: seq<Piece>)
    ensures Rendered(Chars(s) + ([Found(t)] + ps)) == s + Html(t) + Rendered(ps)
  {
    RenderedChars(s, [Found(t)] + ps);
    assert ([Found(t)] + ps)[1..] == ps;
    assert s + (Html(t) + Rendered(ps)) == s + Html(t) + Rendered(ps);
  }

  lemma {:induction false} ReplaceIsRendered(text: string, from: nat)
    requires from <= |text|
    ensures Replace(text, from) == Rendered(Scan(text[from..]))
    decreases |text| - from
  {
    hide Match, Scan;
    ScanFrom(text, from);
    match Exec(text, from)
    case None =>
      RenderedChars(text[from..], []);
      assert Chars(text[from..]) + [] == Chars(text[from..]);
    case Some(h) =>
      ReplaceIsRendered(text, h.lastIndex);
      RenderedUpToMatch(text[from..h.index], h.token, Scan(text[h.lastIndex..]));
  }

  /** Rendering replaces the spans that parsing reports, and nothing else. */
  lemma RenderingAndParsingAgree(text: string)
    ensures RenderMentions(text) == Rendered(Scan(text))
    ensures MentionsIn(Scan(text)) == [] <==> Scan(text) == Chars(text)
    ensures MentionsIn(Scan(text)) == [] ==> RenderMentions(text) == text
  {
    hide Match, Scan;
    assert text[0..] == text;
    ReplaceIsRendered(text, 0);
    ScanIsLeftmost(text);
    if MentionsIn(Scan(text)) == [] {
      OnlyChars(Scan(text));
      RenderedChars(text, []);
      assert Chars(text) + [] == Chars(text);
    }
    if Scan(text) == Chars(text) {
      NoMentionsInChars(text, []);
      assert Chars(text) + [] == Chars(text);
    }
  }

  lemma {:induction false} OnlyChars(ps: seq<Piece>)
    requires MentionsIn(ps) == []
    ensures ps == Chars(Write(ps))
  {
    if ps == [] {
    } else {
      OnlyChars(ps[1..]);
      assert ps == [ps[0]] + ps[1..];
      assert Chars([ps[0].c] + Write(ps[1..])) == [ps[0]] + Chars(Write(ps[1..]));
    }
  }

  /** Exactly the mentions that were written come back, each with its kind, and rendering fills in each. */
  lemma MentionsRoundTrip(ps: seq<Piece>)
    requires Plain(ps)
    ensures MentionsIn(Scan(Write(ps))) == MentionsIn(ps)
    ensures RenderMentions(Write(ps)) == Rendered(ps)
  {
    PlainRoundTrip(ps);
    RenderingAndParsingAgree(Write(ps));
  }

  function ShownId(t: Token): string {
    if t.id.Some? then t.id.value else "undefined"
  }

  lemma CutAtQuote(a: string, x: string, b: string, y: string)
    requires a + "\"" + x == b + "\"" + y && '\"' !in a && '\"' !in b
    ensures a == b && x == y
  {
    var s, u := a + "\"" + x, b + "\"" + y;
    assert s[|a|] == '\"' && u[|b|] == '\"';
    assert forall k | 0 <= k < |a| :: s[k] == a[k] && a[k] != '\"';
    assert forall k | 0 <= k < |b| :: u[k] == b[k] && b[k] != '\"';
    assert s[..|a|] == a && u[..|b|] == b && s[|a| + 1..] == x && u[|b| + 1..] == y;
  }

  lemma SamePrefix(p: string, x: string, y: string)
    requires p + x == p + y
    ensures x == y
  {
    assert (p + x)[|p|..] == x && (p + y)[|p|..] == y;
  }

  lemma NoQuotes(t: Token)
    requires WellFormed(t)
    ensures '\"' !in t.word && '\"' !in ShownId(t)
  {
    forall i | 0 <= i < |t.word| ensures t.word[i] != '\"' { NoQuoteInWord(t.word, i); }
  }

  lemma NoQuoteInWord(word: string, i: nat)
    requires IsWord(word) && i < |word|
    ensures word[i] != '\"'
  {
    assert '\"' !in "user" && '\"' !in "team" && '\"' !in "everyone";
  }

  lemma HtmlSplits(t: Token)
    ensures Html(t) == "<span class=\"mention mention-" + (t.word + "\"" + (" data-id=\"" + (ShownId(t) + "\""
                         + (">\n        @" + t.caption + "\n      </span>"))))
  {
  }

  /** The replacement tells the word, the id and the caption apart; only a missing id looks like "undefined". */
  lemma HtmlTellsTokensApart(t: Token, u: Token)
    requires WellFormed(t) && WellFormed(u)
    ensures Html(t) == Html(u) <==> t.word == u.word && ShownId(t) == ShownId(u) && t.caption == u.caption
  {
    NoQuotes(t);
    NoQuotes(u);
    HtmlSplits(t);
    HtmlSplits(u);
    hide Html, ShownId, WellFormed;
    var open, middle, at, end := "<span class=\"mention mention-", " data-id=\"", ">\n        @", "\n      </span>";
    if Html(t) == Html(u) {
      var x, y := at + t.caption + end, at + u.caption + end;
      var a, b := ShownId(t) + "\"" + x, ShownId(u) + "\"" + y;
      SamePrefix(open, t.word + "\"" + (middle + a), u.word + "\"" + (middle + b));
      CutAtQuote(t.word, middle + a, u.word, middle + b);
      SamePrefix(middle, a, b);
      CutAtQuote(ShownId(t), x, ShownId(u), y);
      SameMiddle(at, t.caption, u.caption, end);
    }
  }

  lemma SameMiddle(open: string, a: string, b: string, end: string)
    requires open + a + end == open + b + end
    ensures a == b
  {
    assert |a| == |b|;
    assert (open + a + end)[|open|..|open| + |a|] == a && (open + b + end)[|open|..|open| + |b|] == b;
  }

  /** Rendering goes piece by piece. */
  lemma {:induction false} RenderedInParts(ps: seq<Piece>, qs: seq<Piece>)
    ensures Rendered(ps + qs) == Rendered(ps) + Rendered(qs)
  {
    if ps == [] {
      assert ps + qs == qs;
    } else {
      assert (ps + qs)[1..] == ps[1..] + qs;
      RenderedInParts(ps[1..], qs);
    }
  }
}
