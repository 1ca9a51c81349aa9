/** The host registry: the process-wide map from hostname to store
    application, built by joining the host rows with the store rows and
    latched so that it is built only while it is still unbuilt. */
module HostRegistry {
  import opened Wrappers
  import opened Records
  import Pages

  /** A persisted hostname-to-store mapping. */
  datatype Host = Host(id: int, storeId: int, name: string)

  /** A tenant. Only its identifier and page set matter here; the rest of its
      configuration is what `createApp` consumes. */
  datatype Store = Store(id: int, pages: seq<Pages.Page>)

  /** Some loaded store has identifier `id`. */
  predicate HasStore(stores: seq<Store>, id: int)
  {
    exists j :: 0 <= j < |stores| && stores[j].id == id
  }

  /** Hostname `h` is routed: some host row carries it and points to a loaded store. */
  ghost predicate Routed(hosts: seq<Host>, stores: seq<Store>, h: string)
  {
    exists i :: 0 <= i < |hosts| && hosts[i].name == h && HasStore(stores, hosts[i].storeId)
  }

  /** The inner loop for one host row: every store whose Id matches the row's
      StoreId installs `createApp(store)` under the row's name, in scan order. */
  function ScanStores<App>(m: map<string, App>, host: Host, stores: seq<Store>,
                           createApp: Store -> App): map<string, App>
  {
    if |stores| == 0 then m
    else
      var m' := ScanStores(m, host, stores[..|stores| - 1], createApp);
      var s := stores[|stores| - 1];
      if s.id == host.storeId then m'[host.name := createApp(s)] else m'
  }

  /** The reference join: starting from an empty map, the host rows in scan
      order, each followed by its inner scan of the stores. */
  function Build<App>(hosts: seq<Host>, stores: seq<Store>, createApp: Store -> App): map<string, App>
  {
    if |hosts| == 0 then map[]
    else ScanStores(Build(hosts[..|hosts| - 1], stores, createApp), hosts[|hosts| - 1], stores, createApp)
  }

  lemma {:induction false} ScanStoresKeys<App>(m: map<string, App>, host: Host, stores: seq<Store>,
                                              createApp: Store -> App, h: string)
    ensures h in ScanStores(m, host, stores, createApp)
        <==> h in m || (h == host.name && HasStore(stores, host.storeId))
  {
    if |stores| > 0 {
      var init := stores[..|stores| - 1];
      ScanStoresKeys(m, host, init, createApp, h);
      if HasStore(stores, host.storeId) && stores[|stores| - 1].id != host.storeId {
        var j :| 0 <= j < |stores| && stores[j].id == host.storeId;
        assert init[j].id == host.storeId;
      }
      if HasStore(init, host.storeId) {
        var j :| 0 <= j < |init| && init[j].id == host.storeId;
        assert stores[j] == init[j];
      }
    }
  }

  /** The inner scan leaves every other hostname's entry as it was. */
  lemma {:induction false} ScanStoresOther<App>(m: map<string, App>, host: Host, stores: seq<Store>,
                                               createApp: Store -> App, h: string)
    requires h != host.name && h in m
    ensures h in ScanStores(m, host, stores, createApp)
    ensures ScanStores(m, host, stores, createApp)[h] == m[h]
  {
    if |stores| > 0 {
      ScanStoresOther(m, host, stores[..|stores| - 1], createApp, h);
    }
  }

  /** An inner scan that finds no store leaves the map as it was. */
  lemma {:induction false} ScanStoresNoMatch<App>(m: map<string, App>, host: Host, stores: seq<Store>,
                                                 createApp: Store -> App)
    requires !HasStore(stores, host.storeId)
    ensures ScanStores(m, host, stores, createApp) == m
  {
    if |stores| > 0 {
      var init := stores[..|stores| - 1];
      assert forall j :: 0 <= j < |init| ==> init[j] == stores[j];
      ScanStoresNoMatch(m, host, init, createApp);
      assert stores[|stores| - 1].id != host.storeId;
    }
  }

  /** The inner scan's entry for the row's name comes from the last matching store. */
  lemma {:induction false} ScanStoresLast<App>(m: map<string, App>, host: Host, stores: seq<Store>,
                                              createApp: Store -> App, j: int)
    requires 0 <= j < |stores| && stores[j].id == host.storeId
    requires forall k :: j < k < |stores| ==> stores[k].id != host.storeId
    ensures host.name in ScanStores(m, host, stores, createApp)
    ensures ScanStores(m, host, stores, createApp)[host.name] == createApp(stores[j])
  {
    var init := stores[..|stores| - 1];
    if j < |stores| - 1 {
      assert init[j] == stores[j];
      forall k | j < k < |init| ensures init[k].id != host.storeId {
        assert init[k] == stores[k];
      }
      ScanStoresLast(m, host, init, createApp, j);
    }
  }

  /** After a build, a hostname is a key exactly when some host row names it
      and points to a loaded store; unmatched host rows contribute nothing, and
      nothing else survives from any earlier map. */
  lemma {:induction false} BuildKeys<App>(hosts: seq<Host>, stores: seq<Store>, createApp: Store -> App, h: string)
    ensures h in Build(hosts, stores, createApp) <==> Routed(hosts, stores, h)
  {
    if |hosts| > 0 {
      var init := hosts[..|hosts| - 1];
      var last := hosts[|hosts| - 1];
      BuildKeys(init, stores, createApp, h);
      ScanStoresKeys(Build(init, stores, createApp), last, stores, createApp, h);
      if Routed(init, stores, h) {
        var i :| 0 <= i < |init| && init[i].name == h && HasStore(stores, init[i].storeId);
        assert hosts[i] == init[i];
      }
      if Routed(hosts, stores, h) {
        var i :| 0 <= i < |hosts| && hosts[i].name == h && HasStore(stores, hosts[i].storeId);
        if i < |hosts| - 1 {
          assert init[i] == hosts[i];
        }
      }
    }
  }

  /** Last write wins: when host row `i` is the last row named `h` that points
      to a loaded store, and store `j` is the last store with that row's
      StoreId, the entry for `h` is `createApp(stores[j])`. */
  lemma {:induction false} BuildLastWriteWins<App>(hosts: seq<Host>, stores: seq<Store>,
                                                  createApp: Store -> App, i: int, j: int)
    requires 0 <= i < |hosts| && 0 <= j < |stores|
    requires stores[j].id == hosts[i].storeId
    requires forall k :: j < k < |stores| ==> stores[k].id != hosts[i].storeId
    requires forall k :: i < k < |hosts| && hosts[k].name == hosts[i].name ==> !HasStore(stores, hosts[k].storeId)
    ensures hosts[i].name in Build(hosts, stores, createApp)
    ensures Build(hosts, stores, createApp)[hosts[i].name] == createApp(stores[j])
  {
    var init := hosts[..|hosts| - 1];
    var last := hosts[|hosts| - 1];
    var prev := Build(init, stores, createApp);
    if i == |hosts| - 1 {
      ScanStoresLast(prev, last, stores, createApp, j);
    } else {
      assert init[i] == hosts[i];
      forall k | i < k < |init| && init[k].name == init[i].name
        ensures !HasStore(stores, init[k].storeId)
      {
        assert init[k] == hosts[k];
      }
      BuildLastWriteWins(init, stores, createApp, i, j);
      if last.name == hosts[i].name {
        ScanStoresNoMatch(prev, last, stores, createApp);
      } else {
        ScanStoresOther(prev, last, stores, createApp, hosts[i].name);
      }
    }
  }

  /** The nested loops of `updateHostApp`: hosts outer, stores inner, into a
      fresh map. */
  method BuildHostApp<App>(hosts: seq<Host>, stores: seq<Store>, createApp: Store -> App)
    returns (m: map<string, App>)
    ensures m == Build(hosts, stores, createApp)
    ensures forall h :: h in m <==> Routed(hosts, stores, h)
  {
    m := map[];
    var i := 0;
    while i < |hosts|
      invariant 0 <= i <= |hosts|
      invariant m == Build(hosts[..i], stores, createApp)
    {
      ghost var before := m;
      var j := 0;
      while j < |stores|
        invariant 0 <= j <= |stores|
        invariant m == ScanStores(before, hosts[i], stores[..j], createApp)
      {
        assert stores[..j + 1][..j] == stores[..j];
        if stores[j].id == hosts[i].storeId {
          m := m[hosts[i].name := createApp(stores[j])];
        }
        j := j + 1;
      }
      assert stores[..j] == stores;
      assert hosts[..i + 1][..i] == hosts[..i];
      i := i + 1;
    }
    assert hosts[..i] == hosts;
    forall h ensures h in m <==> Routed(hosts, stores, h) {
      BuildKeys(hosts, stores, createApp, h);
    }
  }

  /** The latch behind `_hostApp`: Unbuilt is the nil map; a built map, even
      an empty one, is never nil again. */
  datatype Registry<App> = Unbuilt | Built(apps: map<string, App>)

  /** The registry after an operation, and the failure it panicked with, if any. */
  datatype Step<App> = Step(registry: Registry<App>, panic: Option<DbFailure>)

  /** `updateHostApp`: both scans must succeed (the host scan is reported first)
      before the registry is replaced wholesale by a freshly built map; a failed
      scan panics and leaves the installed registry as it was. */
  function UpdateHostApp<App>(r: Registry<App>, hostScan: Result<seq<Host>, DbFailure>,
                              storeScan: Result<seq<Store>, DbFailure>,
                              createApp: Store -> App): (s: Step<App>)
    ensures s.panic.Some? <==> hostScan.Failure? || storeScan.Failure?
    ensures hostScan.Failure? ==> s.panic == Some(hostScan.error)
    ensures hostScan.Success? && storeScan.Failure? ==> s.panic == Some(storeScan.error)
    ensures s.panic.Some? ==> s.registry == r
    ensures s.panic.None? ==> s.registry.Built?
    ensures s.panic.None? ==>
      forall h :: h in s.registry.apps <==> Routed(hostScan.value, storeScan.value, h)
    ensures s.panic.None? ==> s.registry.apps == Build(hostScan.value, storeScan.value, createApp)
  {
    match hostScan
    case Failure(f) => Step(r, Some(f))
    case Success(hosts) =>
      match storeScan
      case Failure(f) => Step(r, Some(f))
      case Success(stores) =>
        var apps := Build(hosts, stores, createApp);
        assert forall h :: h in apps <==> Routed(hosts, stores, h) by {
          forall h ensures h in apps <==> Routed(hosts, stores, h) {
            BuildKeys(hosts, stores, createApp, h);
          }
        }
        Step(Built(apps), None)
  }

  /** `getHostApp`: builds only while the registry is unbuilt; a built registry
      is returned as it is, without scanning. The map handed back is the
      resulting registry's. */
  function GetHostApp<App>(r: Registry<App>, hostScan: Result<seq<Host>, DbFailure>,
                           storeScan: Result<seq<Store>, DbFailure>,
                           createApp: Store -> App): (s: Step<App>)
    ensures r.Built? ==> s == Step(r, None)
    ensures r.Unbuilt? ==> (s.panic.Some? <==> hostScan.Failure? || storeScan.Failure?)
    ensures s.panic.Some? ==> s.registry == Unbuilt
    ensures s.panic.None? ==> s.registry.Built?
    ensures r.Unbuilt? && s.panic.None? ==>
      forall h :: h in s.registry.apps <==> Routed(hostScan.value, storeScan.value, h)
    ensures r.Unbuilt? && s.panic.None? ==>
      s.registry.apps == Build(hostScan.value, storeScan.value, createApp)
  {
    if r.Unbuilt? then UpdateHostApp(r, hostScan, storeScan, createApp) else Step(r, None)
  }

  /** Once a lookup has built the registry, every later lookup returns the same
      map and never panics, whatever the tables would now scan to. */
  lemma GetHostAppLatches<App>(r: Registry<App>,
                               hostScan: Result<seq<Host>, DbFailure>, storeScan: Result<seq<Store>, DbFailure>,
                               hostScan': Result<seq<Host>, DbFailure>, storeScan': Result<seq<Store>, DbFailure>,
                               createApp: Store -> App)
    requires GetHostApp(r, hostScan, storeScan, createApp).panic.None?
    ensures var s := GetHostApp(r, hostScan, storeScan, createApp);
            GetHostApp(s.registry, hostScan', storeScan', createApp) == Step(s.registry, None)
  {
  }

  /** Hostnames served by one and the same tenant: with identical rows, a
      rebuild installs the same mapping as before, so every hostname keeps
      resolving to an application of the same store. */
  lemma RebuildIsStable<App>(r: Registry<App>, hosts: seq<Host>, stores: seq<Store>, createApp: Store -> App)
    ensures var s := UpdateHostApp(r, Success(hosts), Success(stores), createApp);
            UpdateHostApp(s.registry, Success(hosts), Success(stores), createApp) == s
  {
  }

  /** End to end: host "shop.example.com" for store 1, whose only page is
      "home" with template "home.html". After a build, the hostname resolves to
      that store's application, whose resolver renders "home" through
      "home.html" with the page as data. */
  lemma EndToEnd(home: Pages.Page)
    requires home.storeId == 1 && home.name == "home" && home.templateName == "home.html"
    ensures var s := GetHostApp(Unbuilt, Success([Host(1, 1, "shop.example.com")]),
                                Success([Store(1, [home])]), (st: Store) => st);
            && s.panic.None?
            && "shop.example.com" in s.registry.apps
            && Pages.DisplayPage(s.registry.apps["shop.example.com"].pages, "home")
               == Some(Pages.Render(200, "home.html", home))
  {
  }
}
