/**
 * The route listing a service reports on each poll, and how its entries are
 * looked up by route key. Shared by both server variants.
 */
module Listing {
  import opened Wrappers
  import opened Camel
  import opened Normalize

  /** The key `Service.update` files an entry under. */
  function EntryKey(e: ReadRouteEntry): string {
    RouteKey(e.camelManagementName, e.routeId)
  }

  /** Some entry of the listing is filed under `key`. */
  predicate Reported(entries: seq<ReadRouteEntry>, key: string) {
    exists i :: 0 <= i < |entries| && EntryKey(entries[i]) == key
  }

  /** The last entry filed under `key`: the one whose values a poll leaves behind. */
  function LastReport(entries: seq<ReadRouteEntry>, key: string): (r: Option<ReadRouteEntry>)
    ensures r.Some? <==> Reported(entries, key)
    ensures r.Some? ==> (exists i :: 0 <= i < |entries| && entries[i] == r.value && EntryKey(r.value) == key
                                     && forall j :: i < j < |entries| ==> EntryKey(entries[j]) != key)
    decreases |entries|
  {
    if entries == [] then None
    else
      var n := |entries| - 1;
      if EntryKey(entries[n]) == key then Some(entries[n])
      else
        var r := LastReport(entries[..n], key);
        PrefixReported(entries, key);
        assert r.Some? ==> (exists i :: 0 <= i < |entries| && entries[i] == r.value && EntryKey(r.value) == key
                                        && forall j :: i < j < |entries| ==> EntryKey(entries[j]) != key) by {
          if r.Some? {
            var i :| 0 <= i < n && entries[..n][i] == r.value && EntryKey(r.value) == key
                     && forall j :: i < j < n ==> EntryKey(entries[..n][j]) != key;
            assert entries[i] == entries[..n][i];
            forall j | i < j < |entries|
              ensures EntryKey(entries[j]) != key
            {
              if j < n {
                assert entries[j] == entries[..n][j];
              }
            }
          }
        }
        r
  }

  /** The first entry filed under `key`: the one that creates a route still unknown. */
  function FirstReport(entries: seq<ReadRouteEntry>, key: string): (r: Option<ReadRouteEntry>)
    ensures r.Some? <==> Reported(entries, key)
    ensures r.Some? ==> (exists i :: 0 <= i < |entries| && entries[i] == r.value && EntryKey(r.value) == key
                                     && forall j :: 0 <= j < i ==> EntryKey(entries[j]) != key)
    decreases |entries|
  {
    if entries == [] then None
    else
      var n := |entries| - 1;
      var r := FirstReport(entries[..n], key);
      PrefixReported(entries, key);
      if r.Some? then
        assert exists i :: 0 <= i < |entries| && entries[i] == r.value && EntryKey(r.value) == key
                           && forall j :: 0 <= j < i ==> EntryKey(entries[j]) != key by {
          var i :| 0 <= i < n && entries[..n][i] == r.value && EntryKey(r.value) == key
                   && forall j :: 0 <= j < i ==> EntryKey(entries[..n][j]) != key;
          assert entries[i] == entries[..n][i];
          forall j | 0 <= j < i
            ensures EntryKey(entries[j]) != key
          {
            assert entries[j] == entries[..n][j];
          }
        }
        r
      else if EntryKey(entries[n]) == key then
        assert forall j :: 0 <= j < n ==> EntryKey(entries[j]) != key by {
          forall j | 0 <= j < n
            ensures EntryKey(entries[j]) != key
          {
            assert entries[j] == entries[..n][j];
          }
        }
        Some(entries[n])
      else None
  }

  /** A listing is reported on exactly when its prefix or its last entry is. */
  lemma PrefixReported(entries: seq<ReadRouteEntry>, key: string)
    requires entries != []
    ensures Reported(entries, key) <==>
      Reported(entries[..|entries| - 1], key) || EntryKey(entries[|entries| - 1]) == key
  {
    var n := |entries| - 1;
    if Reported(entries, key) {
      var i :| 0 <= i < |entries| && EntryKey(entries[i]) == key;
      if i < n {
        assert entries[..n][i] == entries[i];
      }
    }
    if Reported(entries[..n], key) {
      var i :| 0 <= i < n && EntryKey(entries[..n][i]) == key;
      assert entries[..n][i] == entries[i];
    }
  }

  /** Growing the listing by one entry, as the merge loops do. */
  lemma ReportsGrow(entries: seq<ReadRouteEntry>, e: ReadRouteEntry, key: string)
    ensures Reported(entries + [e], key) <==> Reported(entries, key) || EntryKey(e) == key
    ensures LastReport(entries + [e], key) == if EntryKey(e) == key then Some(e) else LastReport(entries, key)
    ensures FirstReport(entries + [e], key) == if Reported(entries, key) then FirstReport(entries, key)
      else if EntryKey(e) == key then Some(e) else None
  {
    var all := entries + [e];
    assert all[..|entries|] == entries;
    assert all[|entries|] == e;
    if Reported(entries, key) {
      var i :| 0 <= i < |entries| && EntryKey(entries[i]) == key;
      assert all[i] == entries[i];
    }
  }
}
