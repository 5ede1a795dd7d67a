/** The router facade `_route`: resolve the request against the catalog,
    distribute the files round-robin, and ask the change tracker which of
    each host's files changed. */
module Router {
  import opened Wrappers
  import opened Models
  import opened Seqs
  import opened ChangeTracking
  import opened Resolver
  import opened Distributor

  /** `CollectionNotFoundError`: no live row matches the request. */
  datatype RouteError = CollectionNotFound(name: string, tags: seq<string>)

  /** What a host receives: every file it serves, and the files it must refresh. */
  datatype HostRoute = HostRoute(searchFiles: seq<FileId>, updateFiles: seq<FileId>)

  /** The result of a routing call, keyed by host. */
  type Routing = map<Host, HostRoute>

  /** The files a request resolves to, as `(id, update time)` pairs in catalog order. */
  function ResolvedEntries(catalog: seq<Table>, tableFiles: seq<TableFile>, name: string, tags: seq<string>,
                           matches: (string, string) -> bool): seq<FileEntry>
  {
    Entries(RoutableFiles(tableFiles, CollectionIds(Matched(catalog, name, tags), name, tags, matches)))
  }

  /** The per-host result for a routing map, given the ledger before the call. */
  function Results(ledger: Ledger, routing: map<Host, seq<FileEntry>>): Routing {
    map h | h in routing :: HostRoute(Ids(routing[h]), Scan(HostFiles(ledger, h), routing[h]).updates)
  }

  /** The ledger after the call: each host of the routing map has had its
      list passed through the tracker; every other host is as it was. */
  function Advanced(ledger: Ledger, routing: map<Host, seq<FileEntry>>): Ledger {
    map h | h in ledger.Keys + routing.Keys ::
      if h in routing then Scan(HostFiles(ledger, h), routing[h]).ledger else ledger[h]
  }

  /** The part of a routing map whose hosts are in `done`. */
  function Restrict(routing: map<Host, seq<FileEntry>>, done: set<Host>): map<Host, seq<FileEntry>>
    requires done <= routing.Keys
  {
    map h | h in done :: routing[h]
  }

  /** Taking one more host into the restriction adds its list. */
  lemma RestrictStep(routing: map<Host, seq<FileEntry>>, done: set<Host>, host: Host)
    requires done <= routing.Keys && host in routing && host !in done
    ensures host !in Restrict(routing, done)
    ensures Restrict(routing, done + {host}) == Restrict(routing, done)[host := routing[host]]
  {
    var m1 := Restrict(routing, done + {host});
    var m2 := Restrict(routing, done)[host := routing[host]];
    assert m1.Keys == m2.Keys;
    forall h | h in m1 ensures m1[h] == m2[h] {
    }
  }

  /** Handling one more host adds its entry to the results. */
  lemma ResultsInsert(ledger: Ledger, before: map<Host, seq<FileEntry>>, host: Host, files: seq<FileEntry>)
    requires host !in before
    ensures Results(ledger, before[host := files]) ==
              Results(ledger, before)[host := HostRoute(Ids(files), Scan(HostFiles(ledger, host), files).updates)]
  {
    var r1 := Results(ledger, before[host := files]);
    var r2 := Results(ledger, before)[host := HostRoute(Ids(files), Scan(HostFiles(ledger, host), files).updates)];
    assert r1.Keys == r2.Keys;
    forall h | h in r1 ensures r1[h] == r2[h] {
    }
  }

  /** Handling one more host sets its ledger, which was untouched before. */
  lemma AdvancedInsert(ledger: Ledger, before: map<Host, seq<FileEntry>>, host: Host, files: seq<FileEntry>)
    requires host !in before
    ensures HostFiles(Advanced(ledger, before), host) == HostFiles(ledger, host)
    ensures Advanced(ledger, before[host := files]) ==
              Advanced(ledger, before)[host := Scan(HostFiles(ledger, host), files).ledger]
  {
    var after := before[host := files];
    var d := Scan(HostFiles(ledger, host), files).ledger;
    var a0 := Advanced(ledger, before);
    var a1 := Advanced(ledger, after);
    var a2 := a0[host := d];
    assert a1.Keys == a2.Keys by {
      assert a1.Keys == ledger.Keys + after.Keys;
      assert a0.Keys == ledger.Keys + before.Keys;
    }
    forall h | h in a1 ensures a1[h] == a2[h] {
      if h == host {
        assert a1[h] == d;
      } else if h in before {
        assert a1[h] == Scan(HostFiles(ledger, h), before[h]).ledger == a0[h];
      } else {
        assert a1[h] == ledger[h] == a0[h];
      }
    }
  }

  /** The result assembly loop of `_route`: for each host, all its file ids
      to search and the ids the tracker reports as changed. */
  method FilterRouting(tracker: ChangeTracker, routing: map<Host, seq<FileEntry>>) returns (filterRouting: Routing)
    modifies tracker
    ensures filterRouting == Results(old(tracker.ledger), routing)
    ensures tracker.ledger == Advanced(old(tracker.ledger), routing)
  {
    ghost var start := tracker.ledger;
    ghost var done: set<Host> := {};
    filterRouting := map[];
    var pending := routing.Keys;
    RestrictNone(routing);
    AdvancedNone(start);
    while pending != {}
      invariant pending <= routing.Keys
      invariant done == routing.Keys - pending
      invariant filterRouting == Results(start, Restrict(routing, done))
      invariant tracker.ledger == Advanced(start, Restrict(routing, done))
      decreases pending
    {
      var host :| host in pending;
      var filess := routing[host];
      ghost var before := Restrict(routing, done);
      RestrictStep(routing, done, host);
      ResultsInsert(start, before, host, filess);
      AdvancedInsert(start, before, host, filess);
      var udFiles := tracker.FilterFileToUpdate(host, filess);
      var searchFiles := Ids(filess);
      filterRouting := filterRouting[host := HostRoute(searchFiles, udFiles)];
      pending := pending - {host};
      done := done + {host};
    }
    RestrictAll(routing, done);
  }

  /** Restricting to no host leaves nothing, and a ledger advanced by
      nothing is unchanged. */
  lemma RestrictNone(routing: map<Host, seq<FileEntry>>)
    ensures Restrict(routing, {}) == map[]
  {
  }

  lemma AdvancedNone(ledger: Ledger)
    ensures Advanced(ledger, map[]) == ledger
  {
    var a := Advanced(ledger, map[]);
    assert a.Keys == ledger.Keys;
  }

  /** Restricting to every host gives the whole map. */
  lemma RestrictAll(routing: map<Host, seq<FileEntry>>, done: set<Host>)
    requires done == routing.Keys
    ensures Restrict(routing, done) == routing
  {
  }

  /** `_route`: fail with `CollectionNotFound` when no row matches; otherwise
      route the resolved files round-robin over `servers` and record, per
      host, which of its files changed. The server list may be empty only
      when no file is resolved (the source divides by its length). */
  method Route(tracker: ChangeTracker, catalog: seq<Table>, tableFiles: seq<TableFile>, name: string,
               tags: seq<string>, servers: seq<Host>, matches: (string, string) -> bool)
    returns (result: Result<Routing, RouteError>)
    requires |servers| > 0 || ResolvedEntries(catalog, tableFiles, name, tags, matches) == []
    modifies tracker
    ensures Matched(catalog, name, tags) == [] ==>
              result == Failure(CollectionNotFound(name, tags)) && tracker.ledger == old(tracker.ledger)
    ensures Matched(catalog, name, tags) != [] ==>
              var routing := RoundRobin(ResolvedEntries(catalog, tableFiles, name, tags, matches), servers);
              result == Success(Results(old(tracker.ledger), routing)) &&
              tracker.ledger == Advanced(old(tracker.ledger), routing)
  {
    var collections := Matched(catalog, name, tags);
    if collections == [] {
      return Failure(CollectionNotFound(name, tags));
    }
    var collectionList := CollectionList(collections, name, tags, matches);
    var files := RoutableFiles(tableFiles, collectionList);
    var entries := Entries(files);
    var routing := Distribute(entries, servers);
    var filterRouting := FilterRouting(tracker, routing);
    result := Success(filterRouting);
  }

  /** The result of routing `entries`: the hosts are servers, every host has
      at least one file to search, its files to update are a subsequence of
      its files to search, and no files give the empty result. */
  lemma ResultsShape(ledger: Ledger, entries: seq<FileEntry>, servers: seq<Host>)
    requires |servers| > 0 || entries == []
    ensures forall h :: h in Results(ledger, RoundRobin(entries, servers)) ==> h in servers
    ensures forall h :: h in Results(ledger, RoundRobin(entries, servers)) ==>
              var r := Results(ledger, RoundRobin(entries, servers))[h];
              r.searchFiles != [] && IsSubsequence(r.updateFiles, r.searchFiles)
    ensures entries == [] <==> Results(ledger, RoundRobin(entries, servers)) == map[]
  {
    var routing := RoundRobin(entries, servers);
    var res := Results(ledger, routing);
    forall h | h in res
      ensures h in servers
      ensures res[h].searchFiles != [] && IsSubsequence(res[h].updateFiles, res[h].searchFiles)
    {
      var i :| 0 <= i < |entries| && TargetHost(servers, i) == h;
      AssignedToNonEmpty(entries, servers, h);
      ScanUpdatesSubsequence(HostFiles(ledger, h), routing[h]);
    }
    if entries != [] {
      assert TargetHost(servers, 0) in Hosts(|entries|, servers);
      assert TargetHost(servers, 0) in res;
    }
  }

  /** The files to search of the hosts in `hs` (none for a host without files). */
  function SearchedIds(res: Routing, hs: seq<Host>): multiset<FileId>
    decreases |hs|
  {
    if hs == [] then multiset{}
    else multiset(if hs[0] in res then res[hs[0]].searchFiles else []) + SearchedIds(res, hs[1..])
  }

  /** No file is lost or duplicated: over distinct host names that include
      every server, the files to search hold every resolved file id exactly
      as often as the resolved list does. */
  lemma {:induction false} SearchConservation(ledger: Ledger, entries: seq<FileEntry>, servers: seq<Host>, hs: seq<Host>)
    requires |servers| > 0 || entries == []
    requires DistinctHosts(hs)
    requires forall j :: 0 <= j < |servers| ==> servers[j] in hs
    ensures SearchedIds(Results(ledger, RoundRobin(entries, servers)), hs) == multiset(Ids(entries))
  {
    SearchedIsGathered(ledger, entries, servers, hs);
    AssignedConservation(entries, servers, hs);
  }

  /** Each host's files to search are the ids of its assigned files, in
      order, so summing the files to search is summing the assigned ids. */
  lemma {:induction false} SearchedIsGathered(ledger: Ledger, entries: seq<FileEntry>, servers: seq<Host>, hs: seq<Host>)
    requires |servers| > 0 || entries == []
    ensures forall h :: h in Results(ledger, RoundRobin(entries, servers)) ==>
              Results(ledger, RoundRobin(entries, servers))[h].searchFiles == Ids(AssignedTo(entries, servers, h))
    ensures SearchedIds(Results(ledger, RoundRobin(entries, servers)), hs) == Gathered(entries, servers, hs)
    decreases |hs|
  {
    if hs != [] {
      SearchedIsGathered(ledger, entries, servers, hs[1..]);
      AssignedToNonEmpty(entries, servers, hs[0]);
    }
  }

  /** Routing the same files again reports nothing to update, searches the
      same files, and leaves the ledger as the first call left it. */
  lemma RepeatRouting(ledger: Ledger, routing: map<Host, seq<FileEntry>>)
    ensures Results(Advanced(ledger, routing), routing).Keys == routing.Keys
    ensures forall h :: h in routing ==>
              Results(Advanced(ledger, routing), routing)[h] == HostRoute(Ids(routing[h]), [])
    ensures Advanced(Advanced(ledger, routing), routing) == Advanced(ledger, routing)
  {
    var once := Advanced(ledger, routing);
    forall h | h in routing
      ensures Scan(HostFiles(once, h), routing[h]) == Diff([], HostFiles(once, h))
    {
      assert HostFiles(once, h) == Scan(HostFiles(ledger, h), routing[h]).ledger;
      ScanIdempotent(HostFiles(ledger, h), routing[h]);
    }
    var twice := Advanced(once, routing);
    assert twice.Keys == once.Keys;
    forall h | h in twice ensures twice[h] == once[h] {
    }
  }

  /** A routing call never lowers a stored time, and it leaves the ledger of
      every host without files as it was. */
  lemma LedgerMonotone(ledger: Ledger, routing: map<Host, seq<FileEntry>>)
    ensures forall h, id :: Stored(HostFiles(Advanced(ledger, routing), h), id) >= Stored(HostFiles(ledger, h), id)
    ensures forall h :: h !in routing ==> HostFiles(Advanced(ledger, routing), h) == HostFiles(ledger, h)
  {
    forall h | h in routing
      ensures forall id :: Stored(HostFiles(Advanced(ledger, routing), h), id) >= Stored(HostFiles(ledger, h), id)
    {
      ScanFrame(HostFiles(ledger, h), routing[h]);
    }
  }

  /** With distinct file ids, each host's files to update are exactly its
      files whose time exceeds the time the ledger held, in catalog order. */
  lemma UpdatesAreFresh(ledger: Ledger, entries: seq<FileEntry>, servers: seq<Host>)
    requires |servers| > 0 || entries == []
    requires DistinctIds(entries)
    ensures forall h :: h in Results(ledger, RoundRobin(entries, servers)) ==>
              Results(ledger, RoundRobin(entries, servers))[h].updateFiles ==
                Fresh(HostFiles(ledger, h), AssignedTo(entries, servers, h))
  {
    forall h | h in RoundRobin(entries, servers)
      ensures Scan(HostFiles(ledger, h), AssignedTo(entries, servers, h)).updates ==
                Fresh(HostFiles(ledger, h), AssignedTo(entries, servers, h))
    {
      AssignedInOrder(entries, servers, h);
      ScanDistinct(HostFiles(ledger, h), AssignedTo(entries, servers, h));
    }
  }

  /** The files a request resolves to come from `TableFiles` rows with
      distinct ids, so each host's files to update are exactly its files
      newer than its ledger. */
  lemma ResolvedUpdatesAreFresh(ledger: Ledger, catalog: seq<Table>, tableFiles: seq<TableFile>, name: string,
                                tags: seq<string>, servers: seq<Host>, matches: (string, string) -> bool)
    requires DistinctFileIds(tableFiles)
    requires |servers| > 0 || ResolvedEntries(catalog, tableFiles, name, tags, matches) == []
    ensures var entries := ResolvedEntries(catalog, tableFiles, name, tags, matches);
            forall h :: h in Results(ledger, RoundRobin(entries, servers)) ==>
              Results(ledger, RoundRobin(entries, servers))[h].updateFiles ==
                Fresh(HostFiles(ledger, h), AssignedTo(entries, servers, h))
  {
    EntriesDistinct(tableFiles, CollectionIds(Matched(catalog, name, tags), name, tags, matches));
    UpdatesAreFresh(ledger, ResolvedEntries(catalog, tableFiles, name, tags, matches), servers);
  }

  /** Asking for the default partition routes the collection's own files,
      whether or not an explicit default partition row exists. */
  lemma DefaultPartitionShortcut(catalog: seq<Table>, tableFiles: seq<TableFile>, name: string, tags: seq<string>,
                                 matches: (string, string) -> bool, t: Table, f: TableFile)
    requires DefaultPartitionTag in tags
    requires t in catalog && t.tableId == name && t.state != ToDelete
    requires f in tableFiles && f.tableId == name && (f.fileType == Raw || f.fileType == ToIndex || f.fileType == Index)
    ensures FileEntry(f.id, f.updatedTime) in ResolvedEntries(catalog, tableFiles, name, tags, matches)
  {
    var matched := Matched(catalog, name, tags);
    MatchedMembers(catalog, name, tags);
    assert t in matched;
    var ids := CollectionIds(matched, name, tags, matches);
    CollectionIdsTagged(matched, name, tags, matches, name);
    assert name in ids;
    var files := RoutableFiles(tableFiles, ids);
    assert f in files;
    var k :| 0 <= k < |files| && files[k] == f;
    assert Entries(files)[k] == FileEntry(f.id, f.updatedTime);
  }

  /** Two files over two distinct servers: the first goes to the first
      server, the second to the second. */
  lemma TwoServerDistribution(a: Host, b: Host, e1: FileEntry, e2: FileEntry)
    requires a != b
    ensures RoundRobin([e1, e2], [a, b]) == map[a := [e1], b := [e2]]
  {
    var entries := [e1, e2];
    var servers := [a, b];
    assert TargetHost(servers, 0) == a && TargetHost(servers, 1) == b;
    assert Hosts(2, servers) == {a, b} by {
      HostsStep(0, servers);
      HostsStep(1, servers);
      assert Hosts(0, servers) == {};
    }
    AssignedToStep(entries, servers, 0);
    AssignedToStep(entries, servers, 1);
    assert entries[..0] == [] && entries[..2] == entries;
    assert AssignedTo(entries, servers, a) == [e1] by {
      assert AssignedTo(entries[..1], servers, a) == [e1];
    }
    assert AssignedTo(entries, servers, b) == [e2] by {
      assert AssignedTo(entries[..1], servers, b) == [];
    }
    var m := RoundRobin(entries, servers);
    assert m.Keys == {a, b};
  }

  /** With an empty ledger and positive times, each server must fetch its one file. */
  lemma TwoServerFirstCall(a: Host, b: Host, e1: FileEntry, e2: FileEntry)
    requires a != b && e1.updateTime > 0 && e2.updateTime > 0
    ensures Results(map[], map[a := [e1], b := [e2]]) ==
              map[a := HostRoute([e1.id], [e1.id]), b := HostRoute([e2.id], [e2.id])]
  {
    var routing := map[a := [e1], b := [e2]];
    var first := Results(map[], routing);
    var expected := map[a := HostRoute([e1.id], [e1.id]), b := HostRoute([e2.id], [e2.id])];
    forall h | h in routing ensures first[h] == expected[h] {
      var x := if h == a then e1 else e2;
      assert routing[h] == [x];
      ScanSingle(map[], x);
      assert Ids([x]) == [x.id];
    }
    assert first.Keys == expected.Keys;
  }

  /** A second identical call searches the same files and reports nothing new. */
  lemma TwoServerSecondCall(a: Host, b: Host, e1: FileEntry, e2: FileEntry)
    requires a != b
    ensures var routing := map[a := [e1], b := [e2]];
            Results(Advanced(map[], routing), routing) == map[a := HostRoute([e1.id], []), b := HostRoute([e2.id], [])]
  {
    var routing := map[a := [e1], b := [e2]];
    RepeatRouting(map[], routing);
    assert Ids([e1]) == [e1.id] && Ids([e2]) == [e2.id];
  }

  /** Files "1" (time 5) and "2" (time 7) over servers "A" and "B" with an
      empty ledger: "A" serves and fetches "1", "B" serves and fetches "2";
      an identical second call serves the same files and fetches nothing. */
  lemma TwoServerScenario()
    ensures var routing := RoundRobin([FileEntry("1", 5), FileEntry("2", 7)], ["A", "B"]);
            Results(map[], routing) == map["A" := HostRoute(["1"], ["1"]), "B" := HostRoute(["2"], ["2"])] &&
            Results(Advanced(map[], routing), routing) == map["A" := HostRoute(["1"], []), "B" := HostRoute(["2"], [])]
  {
    var e1, e2 := FileEntry("1", 5), FileEntry("2", 7);
    assert "A"[0] != "B"[0];
    TwoServerDistribution("A", "B", e1, e2);
    TwoServerFirstCall("A", "B", e1, e2);
    TwoServerSecondCall("A", "B", e1, e2);
  }
}
