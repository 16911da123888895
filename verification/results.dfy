/** Optional values, for lookups and parses that can fail, and list comprehensions. */
module Results {

  datatype Option<+T> = None | Some(value: T) {

    /** The value, or `default` when there is none (Python's `dict.get(k, default)`). */
    function GetOr(default: T): T {
      match this
      case Some(v) => v
      case None => default
    }
  }

  /** `[f(x) for x in s]`. */
  function MapSeq<A, B>(f: A --> B, s: seq<A>): (r: seq<B>)
    requires forall k :: 0 <= k < |s| ==> f.requires(s[k])
    ensures |r| == |s|
    ensures forall k :: 0 <= k < |s| ==> r[k] == f(s[k])
  {
    if s == [] then [] else MapSeq(f, s[..|s| - 1]) + [f(s[|s| - 1])]
  }

  /** Mapping one more element appends its image. */
  lemma MapSeqStep<A, B>(f: A --> B, s: seq<A>, n: nat)
    requires n < |s| && forall k :: 0 <= k < |s| ==> f.requires(s[k])
    ensures MapSeq(f, s[..n + 1]) == MapSeq(f, s[..n]) + [f(s[n])]
  {
    assert s[..n + 1][..n] == s[..n];
  }
}
