/**
 * The object store the billing handler lists and prunes: a flat map from keys to
 * object bodies, with the two listings the handler asks for (every key under a
 * prefix, and the "common prefixes" one delimiter deeper) and deletion by key.
 */
module ObjectStore {
  import opened Text

  /** An object's body, as bytes. */
  type Payload = seq<bv8>

  /** The hierarchy delimiter of every delimited listing. */
  const Delimiter: char := '/'

  /** The keys of a prefix listing without a delimiter: every key that starts with `p`. */
  function KeysUnder(objects: map<string, Payload>, p: string): set<string> {
    set k | k in objects && p <= k
  }

  /** The common prefix that `k` falls under, one delimiter below `p`. */
  function ChildPrefix(p: string, k: string): (d: string)
    requires p <= k && Delimiter in k[|p|..]
    ensures IsChildPrefix(d, p) && d <= k
  {
    var seg := BeforeFirst(k[|p|..], Delimiter);
    assert k[|p| + |seg|] == Delimiter;
    p + seg + [Delimiter]
  }

  /**
   * The common prefixes of a delimited listing under `p`: for every key below `p`
   * whose remainder holds a delimiter, `p` followed by that remainder up to and
   * including its first delimiter.
   */
  function CommonPrefixes(objects: map<string, Payload>, p: string): (r: set<string>)
    ensures forall d :: d in r ==> IsChildPrefix(d, p)
  {
    set k | k in objects && p <= k && Delimiter in k[|p|..] :: ChildPrefix(p, k)
  }

  /** `d` is `p`, then a segment free of the delimiter, then one delimiter. */
  predicate IsChildPrefix(d: string, p: string) {
    p <= d && |d| > |p| && d[|d| - 1] == Delimiter && Delimiter !in d[|p|..|d| - 1]
  }

  /** Every common prefix lies one level below `p`, and some stored key lies under it. */
  lemma CommonPrefixShape(objects: map<string, Payload>, p: string, d: string)
    requires d in CommonPrefixes(objects, p)
    ensures IsChildPrefix(d, p)
    ensures exists k :: k in objects && d <= k
  {
    var k :| k in objects && p <= k && Delimiter in k[|p|..] && d == ChildPrefix(p, k);
  }

  /** A key lies under at most one child prefix of `p`. */
  lemma ChildPrefixOfKeyUnique(p: string, d1: string, d2: string, k: string)
    requires IsChildPrefix(d1, p) && IsChildPrefix(d2, p)
    requires d1 <= k && d2 <= k
    ensures d1 == d2
  {
    assert |d1| == |d2|;
  }

  /** The store's state: the objects of the one bucket the handler works on. */
  class Store {
    var objects: map<string, Payload>

    constructor (initial: map<string, Payload>)
      ensures objects == initial
    {
      objects := initial;
    }

    /** Deletes the object at `key`; deleting a key that is not there changes nothing. */
    method DeleteObject(key: string)
      modifies this
      ensures objects == old(objects) - {key}
    {
      objects := objects - {key};
    }
  }
}
