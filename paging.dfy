/**
 * The skip/limit cursor arithmetic used to page through a book's reviews:
 * page `p` of size `l` skips `(p - 1) * l` entries and then keeps at most
 * `l`, where a limit of zero places no bound at all.
 */
module Paging {

  function Min(a: int, b: int): int
  {
    if a <= b then a else b
  }

  /** Drops the first `n` entries; skipping past the end leaves nothing. */
  function Skip<T>(s: seq<T>, n: nat): (r: seq<T>)
    ensures |r| == if n <= |s| then |s| - n else 0
    ensures forall k :: 0 <= k < |r| ==> r[k] == s[n + k]
  {
    if n >= |s| then [] else s[n..]
  }

  /** Keeps the first `n` entries; the store reads a limit of 0 as "no limit". */
  function Limit<T>(s: seq<T>, n: nat): (r: seq<T>)
    ensures n == 0 ==> r == s
    ensures n > 0 ==> |r| == Min(n, |s|)
    ensures forall k :: 0 <= k < |r| ==> r[k] == s[k]
  {
    if n == 0 || n >= |s| then s else s[..n]
  }

  /**
   * Page `page` (counted from 1) of `limit` entries: the positions from
   * `(page - 1) * limit` up to `(page - 1) * limit + limit` (that is,
   * `page * limit`) that exist in `s`, empty once the page starts
   * past the end, and the whole sequence when the limit is 0.
   */
  function Page<T>(s: seq<T>, page: nat, limit: nat): (r: seq<T>)
    requires page >= 1
    ensures limit == 0 ==> r == s
    ensures limit > 0 ==>
              var first := (page - 1) * limit;
              r == s[Min(first, |s|)..Min(first + limit, |s|)]
    ensures (page - 1) * limit >= |s| ==> r == []
    ensures forall x :: x in r ==> x in s
  {
    var skip: nat := (page - 1) * limit;
    var r := Limit(Skip(s, skip), limit);
    assert forall k :: 0 <= k < |r| ==> r[k] == s[skip + k];
    r
  }

  /** The concatenation of pages 1 to `count`, in order. */
  function FirstPages<T>(s: seq<T>, count: nat, limit: nat): seq<T>
  {
    if count == 0 then [] else FirstPages(s, count - 1, limit) + Page(s, count, limit)
  }

  /**
   * Walking the pages in order visits the entries in order, each exactly once:
   * the first `count` pages together are the first `count * limit` entries.
   */
  lemma {:induction false} PagesCover<T>(s: seq<T>, count: nat, limit: nat)
    requires limit > 0
    ensures FirstPages(s, count, limit) == s[..Min(count * limit, |s|)]
  {
    if count > 0 {
      var before := (count - 1) * limit;
      var after := count * limit;
      assert after == before + limit;
      PagesCover(s, count - 1, limit);
      var lo := Min(before, |s|);
      var hi := Min(after, |s|);
      assert FirstPages(s, count - 1, limit) == s[..lo];
      assert Page(s, count, limit) == s[lo..hi];
      JoinSlices(s, lo, hi);
    }
  }

  lemma JoinSlices<T>(s: seq<T>, lo: nat, hi: nat)
    requires lo <= hi <= |s|
    ensures s[..lo] + s[lo..hi] == s[..hi]
  {
  }

  /**
   * Entry `k` is found on page `k / limit + 1`, at position `k % limit`.
   */
  lemma PageOfEntry<T>(s: seq<T>, k: nat, limit: nat)
    requires k < |s| && limit > 0
    ensures k % limit < |Page(s, k / limit + 1, limit)|
    ensures Page(s, k / limit + 1, limit)[k % limit] == s[k]
  {
    var p := k / limit + 1;
    assert (p - 1) * limit + k % limit == k;
    assert p * limit == (p - 1) * limit + limit;
  }
}
