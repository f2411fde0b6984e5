/** Small value types shared by every module of the model. */
module Common {

  /** Java's nullable reference: `null` or a value. */
  datatype Option<T> = None | Some(value: T)

  /**
   * The two exceptions the core throws: `NoSuchElementException` for a name that
   * is not a vertex, and `GraphException` for a negative edge met during a run.
   */
  datatype Error = NotFound | NegativeEdge

  /** A call that returns nothing: it completed, or it threw. */
  datatype Outcome = Pass | Fail(error: Error)

  /** A value, or the exception that was thrown instead of returning one. */
  datatype Result<T> = Ok(value: T) | Err(error: Error)

  /**
   * A vertex distance: a finite integer cost, or the `INFINITY` sentinel
   * (`Double.MAX_VALUE` in the vertex, `Double.POSITIVE_INFINITY` once `getCost`
   * has converted it; both behave as "larger than every cost").
   */
  datatype Dist = Fin(n: nat) | Inf {

    /** The strict `<` of the source's doubles, with the sentinel above every cost. */
    predicate Below(other: Dist) {
      match this
      case Inf => false
      case Fin(a) => other.Inf? || a < other.n
    }
  }

  /** The smaller of two distances. */
  function MinDist(a: Dist, b: Dist): (m: Dist)
    ensures m == a || m == b
    ensures !a.Below(m) && !b.Below(m)
  {
    if b.Below(a) then b else a
  }

  /** A position at which a member of a sequence occurs. */
  lemma PositionOf<T>(s: seq<T>, x: T) returns (i: nat)
    requires x in s
    ensures i < |s| && s[i] == x
  {
    i :| 0 <= i < |s| && s[i] == x;
  }

  /** Cutting a one-longer prefix back by one gives the shorter prefix. */
  lemma PrefixStep<T>(s: seq<T>, i: nat)
    requires i < |s|
    ensures s[..i + 1][..i] == s[..i]
  {
  }
}
