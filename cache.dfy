/**
 * The endpoint-slice cache: hostname -> slice name -> the endpoint list that
 * slice produced when it was last processed. Reads return the union over all
 * slices of a hostname, de-duplicated by (address, service port name).
 */
module SliceCache {
  import opened Types

  type CacheMap = map<Host, map<SliceName, seq<IstioEndpoint>>>

  /** Every hostname held has at least one slice entry. */
  ghost predicate NoEmptyHosts(m: CacheMap)
  {
    forall h :: h in m ==> m[h] != map[]
  }

  // ---------------------------------------------------------------------
  // The effect of update and delete on the nested map
  // ---------------------------------------------------------------------

  /** The cache after update(h, s, eps): the entry [h][s] is overwritten, whether or not eps is empty. */
  function Updated(m: CacheMap, h: Host, s: SliceName, eps: seq<IstioEndpoint>): CacheMap
  {
    var bySlice := if h in m then m[h] else map[];
    m[h := bySlice[s := eps]]
  }

  /** The cache after delete(h, s): the slice goes, and so does the hostname once it has no slices. */
  function Deleted(m: CacheMap, h: Host, s: SliceName): CacheMap
  {
    if h in m && (m[h] - {s}).Keys != {} then m[h := m[h] - {s}] else m - {h}
  }

  /**
   * update stores eps under (h, s) even when eps is empty, adds s to the
   * slices of h, and leaves every other slice and hostname as it was.
   */
  lemma UpdatedSpec(m: CacheMap, h: Host, s: SliceName, eps: seq<IstioEndpoint>)
    ensures var r := Updated(m, h, s, eps);
            && h in r && s in r[h] && r[h][s] == eps
            && r[h].Keys == (if h in m then m[h].Keys else {}) + {s}
            && (forall s' :: s' != s && h in m && s' in m[h] ==> r[h][s'] == m[h][s'])
            && (forall h' :: h' != h ==> (h' in r <==> h' in m))
            && (forall h' :: h' != h && h' in m ==> r[h'] == m[h'])
            && (NoEmptyHosts(m) ==> NoEmptyHosts(r))
  {
  }

  /**
   * delete removes s from the slices of h and drops h exactly when no
   * other slice remains; every other hostname is left as it was.
   */
  lemma DeletedSpec(m: CacheMap, h: Host, s: SliceName)
    ensures var r := Deleted(m, h, s);
            && (h in r <==> h in m && m[h].Keys - {s} != {})
            && (h in r ==> r[h] == m[h] - {s})
            && (forall h' :: h' != h ==> (h' in r <==> h' in m))
            && (forall h' :: h' != h && h' in m ==> r[h'] == m[h'])
            && (NoEmptyHosts(m) ==> NoEmptyHosts(r))
  {
  }

  // ---------------------------------------------------------------------
  // What get returns
  // ---------------------------------------------------------------------

  /** Every endpoint stored under some slice of h. */
  function StoredEndpoints(m: CacheMap, h: Host): set<IstioEndpoint>
  {
    if h in m then (set s, e | s in m[h] && e in m[h][s] :: e) else {}
  }

  /** Every (address, port name) stored under h. */
  function StoredKeys(m: CacheMap, h: Host): set<EndpointKey>
  {
    set e | e in StoredEndpoints(m, h) :: KeyOf(e)
  }

  function KeysOf(eps: seq<IstioEndpoint>): set<EndpointKey>
  {
    set e | e in eps :: KeyOf(e)
  }

  ghost predicate DistinctKeys(eps: seq<IstioEndpoint>)
  {
    forall i, j :: 0 <= i < j < |eps| ==> KeyOf(eps[i]) != KeyOf(eps[j])
  }

  /**
   * eps is an admissible result of get(h): one endpoint per key, each one
   * stored under h, and no stored key missing. Which duplicate is kept is
   * left open.
   */
  ghost predicate IsDedupView(m: CacheMap, h: Host, eps: seq<IstioEndpoint>)
  {
    && DistinctKeys(eps)
    && (forall e :: e in eps ==> e in StoredEndpoints(m, h))
    && KeysOf(eps) == StoredKeys(m, h)
  }

  // ---------------------------------------------------------------------
  // Properties of the specification
  // ---------------------------------------------------------------------

  /** Appending one endpoint adds its key. */
  lemma KeysOfSnoc(init: seq<IstioEndpoint>, last: IstioEndpoint)
    ensures KeysOf(init + [last]) == KeysOf(init) + {KeyOf(last)}
  {
  }

  /** Appending an endpoint with a new key keeps the keys distinct. */
  lemma DistinctKeysSnoc(eps: seq<IstioEndpoint>, last: IstioEndpoint)
    requires DistinctKeys(eps) && KeyOf(last) !in KeysOf(eps)
    ensures DistinctKeys(eps + [last])
  {
  }

  /** A sequence with pairwise distinct keys has as many keys as elements. */
  lemma {:induction false} DistinctKeysCount(eps: seq<IstioEndpoint>)
    requires DistinctKeys(eps)
    ensures |KeysOf(eps)| == |eps|
  {
    if eps != [] {
      var init := eps[..|eps| - 1];
      var last := eps[|eps| - 1];
      assert eps == init + [last];
      KeysOfSnoc(init, last);
      DistinctKeysCount(init);
      forall e | e in init
        ensures KeyOf(e) != KeyOf(last)
      {
        var i :| 0 <= i < |init| && init[i] == e;
        assert eps[i] == e;
      }
      assert KeyOf(last) !in KeysOf(init);
    }
  }

  /** Every admissible result of get(h) has exactly one entry per distinct stored key. */
  lemma DedupViewSize(m: CacheMap, h: Host, eps: seq<IstioEndpoint>)
    requires IsDedupView(m, h, eps)
    ensures |eps| == |StoredKeys(m, h)|
  {
    DistinctKeysCount(eps);
  }

  /** Two admissible results of get(h) agree on keys and length: only the surviving duplicate may differ. */
  lemma DedupViewsAgree(m: CacheMap, h: Host, eps1: seq<IstioEndpoint>, eps2: seq<IstioEndpoint>)
    requires IsDedupView(m, h, eps1) && IsDedupView(m, h, eps2)
    ensures KeysOf(eps1) == KeysOf(eps2) && |eps1| == |eps2|
  {
    DedupViewSize(m, h, eps1);
    DedupViewSize(m, h, eps2);
  }

  /** An unknown hostname has exactly one admissible result: the empty list. */
  lemma UnknownHostIsEmpty(m: CacheMap, h: Host, eps: seq<IstioEndpoint>)
    requires h !in m
    ensures IsDedupView(m, h, eps) <==> eps == []
  {
    if eps != [] {
      assert eps[0] in eps && eps[0] !in StoredEndpoints(m, h);
    }
  }

  /** The endpoints stored under h once every slice entry is known. */
  lemma StoredEndpointsOf(m: CacheMap, h: Host, e: IstioEndpoint)
    ensures e in StoredEndpoints(m, h) <==> h in m && exists s :: s in m[h] && e in m[h][s]
  {
  }

  /** Update never merges: a second update of the same slice discards the first. */
  lemma OverwriteIsFresh(m: CacheMap, h: Host, s: SliceName, e1: seq<IstioEndpoint>, e2: seq<IstioEndpoint>)
    ensures Updated(Updated(m, h, s, e1), h, s, e2) == Updated(m, h, s, e2)
  {
    var r1 := Updated(Updated(m, h, s, e1), h, s, e2);
    var r2 := Updated(m, h, s, e2);
    assert r1[h] == r2[h];
  }

  /**
   * An empty update and a delete store the same endpoints under h, but the
   * empty update keeps the hostname while a delete of its last slice drops it.
   */
  lemma EmptyUpdateVersusDelete(m: CacheMap, h: Host, s: SliceName)
    ensures StoredEndpoints(Updated(m, h, s, []), h) == StoredEndpoints(Deleted(m, h, s), h)
    ensures StoredKeys(Updated(m, h, s, []), h) == StoredKeys(Deleted(m, h, s), h)
    ensures h in Updated(m, h, s, [])
    ensures h !in Deleted(m, h, s) <==> (h !in m || m[h].Keys <= {s})
  {
    var u := Updated(m, h, s, []);
    var d := Deleted(m, h, s);
    forall e | e in StoredEndpoints(u, h)
      ensures e in StoredEndpoints(d, h)
    {
      var s' :| s' in u[h] && e in u[h][s'];
      assert s' != s && h in m && s' in m[h];
      assert s' in m[h].Keys - {s};
      assert s' in d[h] && e in d[h][s'];
      StoredEndpointsOf(d, h, e);
    }
    forall e | e in StoredEndpoints(d, h)
      ensures e in StoredEndpoints(u, h)
    {
      var s' :| s' in d[h] && e in d[h][s'];
      assert s' in u[h] && e in u[h][s'];
      StoredEndpointsOf(u, h, e);
    }
  }

  /** Deleting the last slice of a hostname removes the hostname. */
  lemma LastSliceDeleteDropsHost(m: CacheMap, h: Host, s: SliceName)
    requires h in m && m[h].Keys == {s}
    ensures h !in Deleted(m, h, s)
  {
  }

  /** Deleting a slice and then re-adding the list it held restores the cache exactly. */
  lemma DeleteThenUpdateRestores(m: CacheMap, h: Host, s: SliceName)
    requires h in m && s in m[h]
    ensures Updated(Deleted(m, h, s), h, s, m[h][s]) == m
  {
    var r := Updated(Deleted(m, h, s), h, s, m[h][s]);
    assert r[h] == m[h];
  }

  /**
   * Two slices of one hostname: A and B are added, A is updated to an empty
   * list and B is deleted. No endpoint is left under the hostname, yet the
   * hostname is still held, because A's key was written back with [].
   */
  lemma EmptiedSliceKeepsHost(h: Host, a: SliceName, b: SliceName, ea: IstioEndpoint, eb: IstioEndpoint)
    requires a != b
    ensures var m1 := Updated(Updated(map[], h, a, [ea]), h, b, [eb]);
            var m2 := Updated(m1, h, a, []);
            var m3 := Deleted(m2, h, b);
            && StoredEndpoints(m1, h) == {ea, eb}
            && StoredEndpoints(m2, h) == {eb}
            && StoredEndpoints(m3, h) == {}
            && h in m3 && m3[h] == map[a := []]
  {
    var m1 := Updated(Updated(map[], h, a, [ea]), h, b, [eb]);
    assert m1[h] == map[a := [ea], b := [eb]];
    var m2 := Updated(m1, h, a, []);
    assert m2[h] == map[a := [], b := [eb]];
    var m3 := Deleted(m2, h, b);
    assert a in m2[h].Keys - {b};
    assert m3[h] == map[a := []];
    forall e | e in StoredEndpoints(m1, h)
      ensures e == ea || e == eb
    {
      var s :| s in m1[h] && e in m1[h][s];
    }
    assert ea in m1[h][a] && eb in m1[h][b];
    StoredEndpointsOf(m1, h, ea);
    StoredEndpointsOf(m1, h, eb);
    forall e | e in StoredEndpoints(m2, h)
      ensures e == eb
    {
      var s :| s in m2[h] && e in m2[h][s];
    }
    assert eb in m2[h][b];
    StoredEndpointsOf(m2, h, eb);
  }

  // ---------------------------------------------------------------------
  // The cache object
  // ---------------------------------------------------------------------

  class EndpointSliceCache {
    var endpointsByServiceAndSlice: CacheMap

    ghost predicate Valid()
      reads this
    {
      NoEmptyHosts(endpointsByServiceAndSlice)
    }

    constructor ()
      ensures Valid() && endpointsByServiceAndSlice == map[]
    {
      endpointsByServiceAndSlice := map[];
    }

    /**
     * update: an empty list first deletes the slice entry, then the entry is
     * written back, so the slice key (and the hostname) stay present.
     */
    method Update(h: Host, s: SliceName, eps: seq<IstioEndpoint>)
      requires Valid()
      modifies this
      ensures Valid()
      ensures endpointsByServiceAndSlice == Updated(old(endpointsByServiceAndSlice), h, s, eps)
    {
      var byHost := endpointsByServiceAndSlice;
      if |eps| == 0 && h in byHost {
        byHost := byHost[h := byHost[h] - {s}];
      }
      if h !in byHost {
        byHost := byHost[h := map[]];
      }
      // The deletion above is undone here: the entry is written whatever eps is.
      assert byHost[h][s := eps] == Updated(endpointsByServiceAndSlice, h, s, eps)[h];
      assert s in byHost[h][s := eps];
      endpointsByServiceAndSlice := byHost[h := byHost[h][s := eps]];
    }

    /** delete: remove the slice entry and then a hostname left with no slices. */
    method Delete(h: Host, s: SliceName)
      requires Valid()
      modifies this
      ensures Valid()
      ensures endpointsByServiceAndSlice == Deleted(old(endpointsByServiceAndSlice), h, s)
    {
      if h in endpointsByServiceAndSlice {
        endpointsByServiceAndSlice := endpointsByServiceAndSlice[h := endpointsByServiceAndSlice[h] - {s}];
      }
      if h !in endpointsByServiceAndSlice || endpointsByServiceAndSlice[h] == map[] {
        endpointsByServiceAndSlice := endpointsByServiceAndSlice - {h};
      }
    }

    /** has: a plain membership test on hostnames. */
    method Has(h: Host) returns (found: bool)
      ensures found <==> h in endpointsByServiceAndSlice
    {
      found := h in endpointsByServiceAndSlice;
    }

    /**
     * get: walk the slices of h in an unspecified order and keep the first
     * endpoint seen for each (address, port name).
     */
    method Get(h: Host) returns (eps: seq<IstioEndpoint>)
      ensures IsDedupView(endpointsByServiceAndSlice, h, eps)
      ensures h !in endpointsByServiceAndSlice ==> eps == []
    {
      eps := [];
      if h !in endpointsByServiceAndSlice {
        return;
      }
      var bySlice := endpointsByServiceAndSlice[h];
      var found: set<EndpointKey> := {};
      var remaining := bySlice.Keys;
      ghost var done: set<SliceName> := {};
      while remaining != {}
        invariant remaining + done == bySlice.Keys && remaining !! done
        invariant found == KeysOf(eps)
        invariant DistinctKeys(eps)
        invariant forall e :: e in eps ==> e in StoredEndpoints(endpointsByServiceAndSlice, h)
        invariant forall s, e :: s in done && e in bySlice[s] ==> KeyOf(e) in found
        decreases remaining
      {
        var s :| s in remaining;
        var list := bySlice[s];
        var j := 0;
        while j < |list|
          invariant 0 <= j <= |list|
          invariant found == KeysOf(eps)
          invariant DistinctKeys(eps)
          invariant forall e :: e in eps ==> e in StoredEndpoints(endpointsByServiceAndSlice, h)
          invariant forall s', e :: s' in done && e in bySlice[s'] ==> KeyOf(e) in found
          invariant forall k :: 0 <= k < j ==> KeyOf(list[k]) in found
        {
          var ep := list[j];
          var key := KeyOf(ep);
          if key !in found {
            StoredEndpointsOf(endpointsByServiceAndSlice, h, ep);
            KeysOfSnoc(eps, ep);
            DistinctKeysSnoc(eps, ep);
            found := found + {key};
            eps := eps + [ep];
          }
          assert key in found;
          j := j + 1;
        }
        remaining := remaining - {s};
        done := done + {s};
      }
      forall k | k in StoredKeys(endpointsByServiceAndSlice, h)
        ensures k in KeysOf(eps)
      {
        var e :| e in StoredEndpoints(endpointsByServiceAndSlice, h) && KeyOf(e) == k;
        var s :| s in bySlice && e in bySlice[s];
      }
    }
  }
}
