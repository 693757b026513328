/** Types shared by the models of the services. */
module Common {
  /** A primary key. The database and `randomUUID` issue uuids; only equality of keys matters here. */
  type Id = nat

  /** A nullable column or an optional argument. */
  datatype Option<+T> = None | Some(value: T)

  /** The outcome of a service call: a value, or the exception the service throws. */
  datatype Result<+T> = Ok(value: T) | Err(error: Error)

  /** The exceptions the modelled services throw, by their Nest class. */
  datatype Error = NotFound | Forbidden | Conflict | BadRequest | Failed(message: string)

  /** A subset has no more elements. */
  lemma SubsetSize<T>(a: set<T>, b: set<T>)
    requires a <= b
    ensures |a| <= |b|
  {
    assert b == a + (b - a);
  }

  /** Positions in a sequence, once one more element stands in front of it. */
  function Later(at: seq<nat>): (r: seq<nat>)
    ensures |r| == |at| && forall i | 0 <= i < |at| :: r[i] == at[i] + 1
  {
    seq(|at|, i requires 0 <= i < |at| => at[i] + 1)
  }

  lemma InLater(at: seq<nat>, k: nat)
    ensures k in Later(at) <==> k > 0 && k - 1 in at
  {
    if k in Later(at) {
      var i :| 0 <= i < |at| && Later(at)[i] == k;
      assert at[i] == k - 1;
    }
    if k > 0 && k - 1 in at {
      var i :| 0 <= i < |at| && at[i] == k - 1;
      assert Later(at)[i] == k;
    }
  }

  /** A position in front of later ones. */
  lemma InFront(later: seq<nat>)
    requires forall i | 0 <= i < |later| :: later[i] > 0
    requires forall i, j | 0 <= i < j < |later| :: later[i] < later[j]
    ensures forall i, j | 0 <= i < j <= |later| :: ([0] + later)[i] < ([0] + later)[j]
    ensures forall k: nat :: k in [0] + later <==> k == 0 || k in later
  {
    forall i, j | 0 <= i < j <= |later| ensures ([0] + later)[i] < ([0] + later)[j] {
      assert ([0] + later)[j] == later[j - 1];
      if i > 0 { assert ([0] + later)[i] == later[i - 1]; }
    }
  }
}
