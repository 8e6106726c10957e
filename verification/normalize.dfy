/**
 * The `normalizeData` helper that News and Assets each define (identically)
 * to turn what getCache returns back into a list: a falsy value gives the
 * empty list, an array is kept, and any other value gives the values of its
 * own properties whose key does not start with an underscore.
 */
module Normalize {
  import opened Js
  import opened CacheManager
  import opened App

  /** The values of the entries whose key is not marked, in order. */
  function UnmarkedValues(es: seq<(string, Json)>): (vs: seq<Json>)
    ensures |vs| <= |es|
    ensures forall v :: v in vs ==> exists i :: 0 <= i < |es| && !IsMarked(es[i].0) && es[i].1 == v
    ensures forall i :: 0 <= i < |es| && !IsMarked(es[i].0) ==> es[i].1 in vs
    decreases |es|
  {
    if es == [] then []
    else
      var rest := es[1..];
      assert forall i :: 1 <= i < |es| ==> es[i] == rest[i - 1];
      if IsMarked(es[0].0) then UnmarkedValues(rest)
      else [es[0].1] + UnmarkedValues(rest)
  }

  lemma {:induction false} UnmarkedValuesAppend(a: seq<(string, Json)>, b: seq<(string, Json)>)
    ensures UnmarkedValues(a + b) == UnmarkedValues(a) + UnmarkedValues(b)
    decreases |a|
  {
    if a == [] {
      assert a + b == b;
    } else {
      assert (a + b)[0] == a[0];
      assert (a + b)[1..] == a[1..] + b;
      UnmarkedValuesAppend(a[1..], b);
    }
  }

  /** With no marked key nothing is dropped: the result is `Object.values`. */
  lemma {:induction false} UnmarkedValuesOfUnmarked(es: seq<(string, Json)>)
    requires forall i :: 0 <= i < |es| ==> !IsMarked(es[i].0)
    ensures UnmarkedValues(es) == Values(es)
    decreases |es|
  {
    if es != [] {
      UnmarkedValuesOfUnmarked(es[1..]);
      assert Values(es) == [es[0].1] + Values(es[1..]);
    }
  }

  /** With only marked keys everything is dropped. */
  lemma {:induction false} UnmarkedValuesOfMarked(es: seq<(string, Json)>)
    requires forall i :: 0 <= i < |es| ==> IsMarked(es[i].0)
    ensures UnmarkedValues(es) == []
    decreases |es|
  {
    if es != [] {
      UnmarkedValuesOfMarked(es[1..]);
    }
  }

  function NormalizeData(cached: Json): (r: seq<Json>)
    ensures !Truthy(cached) ==> r == []
    ensures cached.JArr? ==> r == cached.items
    ensures cached.JObj? ==> r == UnmarkedValues(cached.fields)
  {
    if !Truthy(cached) then []
    else if cached.JArr? then cached.items
    else UnmarkedValues(OwnEntries(cached))
  }

  lemma ValuesOfIndexEntries(xs: seq<Json>)
    ensures Values(IndexEntries(xs)) == xs
  {
  }

  /** Unmarked entries followed by marked ones normalize to the values of the former. */
  lemma DropTrailingMarked(fs: seq<(string, Json)>, ms: seq<(string, Json)>)
    requires forall i :: 0 <= i < |fs| ==> !IsMarked(fs[i].0)
    requires forall i :: 0 <= i < |ms| ==> IsMarked(ms[i].0)
    ensures UnmarkedValues(fs + ms) == Values(fs)
  {
    UnmarkedValuesAppend(fs, ms);
    UnmarkedValuesOfUnmarked(fs);
    UnmarkedValuesOfMarked(ms);
  }

  /**
   * The round trip the pages rely on: an array written to the cache and read
   * back through getCache normalizes to the array itself, stale or not.
   */
  lemma NormalizeRecoversArray(xs: seq<Json>, stale: bool, ts: int)
    ensures NormalizeData(Wrap(Some(Hit(JArr(xs), stale, ts)))) == xs
  {
    WrapArray(xs, stale, ts);
    IndexEntriesUnmarked(xs);
    DropTrailingMarked(IndexEntries(xs), Markers(ts));
    ValuesOfIndexEntries(xs);
  }

  /**
   * An object payload whose keys are all unmarked comes back as the list of
   * its values.
   */
  lemma NormalizeRecoversObjectValues(fs: seq<(string, Json)>, stale: bool, ts: int)
    requires forall i :: 0 <= i < |fs| ==> !IsMarked(fs[i].0)
    ensures NormalizeData(Wrap(Some(Hit(JObj(fs), stale, ts)))) == Values(fs)
  {
    WrapObject(fs, stale, ts);
    DropTrailingMarked(fs, Markers(ts));
  }

  /** Whatever was stored, when and with which ttl, a later read gives the stored list back. */
  lemma CachedListReadsBack(s: Store, key: string, xs: seq<Json>, at: int, ttl: int, later: int)
    requires s.Valid()
    ensures NormalizeData(Wrap(Lookup(Put(s, key, Entry(JArr(xs), at, ttl)), key, later))) == xs
  {
    NormalizeRecoversArray(xs, StaleAt(Put(s, key, Entry(JArr(xs), at, ttl)), key, later), at);
  }
}
