/** The change tracker: a process-wide ledger host -> (file id -> last seen
    update time), and `filter_file_to_update`, which reports the files whose
    update time has advanced for a host and records the new times. */
module ChangeTracking {
  import opened Models
  import opened Seqs

  /** One host's part of the ledger. */
  type HostLedger = map<FileId, int>

  /** The whole ledger, keyed by host. */
  type Ledger = map<Host, HostLedger>

  /** The time the ledger holds for `id`; an id never seen counts as 0. */
  function Stored(l: HostLedger, id: FileId): int {
    if id in l then l[id] else 0
  }

  /** A host's ledger; a host never seen has an empty one. */
  function HostFiles(ledger: Ledger, host: Host): HostLedger {
    if host in ledger then ledger[host] else map[]
  }

  /** What one pass over a host's files yields: the ids to update, in input
      order, and the host ledger afterwards. */
  datatype Diff = Diff(updates: seq<FileId>, ledger: HostLedger)

  /** The pass over `xs`, left to right: an entry is reported and recorded
      exactly when its time exceeds the time stored so far for its id. */
  function Scan(l: HostLedger, xs: seq<FileEntry>): Diff
    decreases |xs|
  {
    if xs == [] then Diff([], l)
    else
      var d := Scan(l, xs[..|xs| - 1]);
      var x := xs[|xs| - 1];
      if Stored(d.ledger, x.id) >= x.updateTime then d
      else Diff(d.updates + [x.id], d.ledger[x.id := x.updateTime])
  }

  /** The pass over one more entry extends the pass over the entries before it. */
  lemma ScanStep(l: HostLedger, xs: seq<FileEntry>, i: nat)
    requires i < |xs|
    ensures var d := Scan(l, xs[..i]);
            Scan(l, xs[..i + 1]) ==
              if Stored(d.ledger, xs[i].id) >= xs[i].updateTime then d
              else Diff(d.updates + [xs[i].id], d.ledger[xs[i].id := xs[i].updateTime])
  {
    assert xs[..i + 1][..i] == xs[..i];
  }

  /** A single entry is reported, and stored, exactly when its time is
      strictly greater than the stored one. */
  lemma ScanSingle(l: HostLedger, x: FileEntry)
    ensures Scan(l, [x]) == if x.updateTime > Stored(l, x.id) then Diff([x.id], l[x.id := x.updateTime]) else Diff([], l)
  {
    assert [x][..0] == [];
  }

  /** Reference definition: the ids of `xs`, in order, whose time is strictly
      greater than what `l` holds for them before the pass. */
  function Fresh(l: HostLedger, xs: seq<FileEntry>): seq<FileId>
    decreases |xs|
  {
    if xs == [] then []
    else
      var x := xs[|xs| - 1];
      Fresh(l, xs[..|xs| - 1]) + if x.updateTime > Stored(l, x.id) then [x.id] else []
  }

  /** Stored times never decrease, no entry is dropped, and the only entries
      added or overwritten are those of reported ids. */
  lemma {:induction false} ScanFrame(l: HostLedger, xs: seq<FileEntry>)
    ensures forall id :: Stored(Scan(l, xs).ledger, id) >= Stored(l, id)
    ensures forall id :: id in Scan(l, xs).ledger <==> id in l || id in Scan(l, xs).updates
    ensures forall id :: id in l && id !in Scan(l, xs).updates ==> Scan(l, xs).ledger[id] == l[id]
    decreases |xs|
  {
    if xs != [] {
      ScanFrame(l, xs[..|xs| - 1]);
    }
  }

  /** Every reported id comes from the input, in input order. */
  lemma {:induction false} ScanUpdatesSubsequence(l: HostLedger, xs: seq<FileEntry>)
    ensures IsSubsequence(Scan(l, xs).updates, Ids(xs))
    decreases |xs|
  {
    if xs != [] {
      var k := |xs| - 1;
      ScanUpdatesSubsequence(l, xs[..k]);
      assert Ids(xs)[..k] == Ids(xs[..k]);
    }
  }

  /** After the pass, the ledger holds at least the time of every input entry. */
  lemma {:induction false} ScanDominates(l: HostLedger, xs: seq<FileEntry>)
    ensures forall k :: 0 <= k < |xs| ==> Stored(Scan(l, xs).ledger, xs[k].id) >= xs[k].updateTime
    decreases |xs|
  {
    if xs != [] {
      var k := |xs| - 1;
      ScanDominates(l, xs[..k]);
      var d := Scan(l, xs[..k]);
      forall j | 0 <= j < |xs|
        ensures Stored(Scan(l, xs).ledger, xs[j].id) >= xs[j].updateTime
      {
        if j < k {
          assert xs[..k][j] == xs[j];
          assert Stored(d.ledger, xs[j].id) >= xs[j].updateTime;
        }
      }
    }
  }

  /** A pass over entries the ledger already covers reports nothing and
      leaves the ledger as it was. */
  lemma {:induction false} ScanQuiet(l: HostLedger, xs: seq<FileEntry>)
    requires forall k :: 0 <= k < |xs| ==> Stored(l, xs[k].id) >= xs[k].updateTime
    ensures Scan(l, xs) == Diff([], l)
    decreases |xs|
  {
    if xs != [] {
      var k := |xs| - 1;
      assert forall j :: 0 <= j < k ==> xs[..k][j] == xs[j];
      ScanQuiet(l, xs[..k]);
    }
  }

  /** Repeating a pass with the same entries reports nothing and changes nothing. */
  lemma ScanIdempotent(l: HostLedger, xs: seq<FileEntry>)
    ensures Scan(Scan(l, xs).ledger, xs) == Diff([], Scan(l, xs).ledger)
  {
    ScanDominates(l, xs);
    ScanQuiet(Scan(l, xs).ledger, xs);
  }

  /** With distinct ids, the pass reports exactly the fresh ids in input
      order, and each of them is stored with its new time. */
  lemma {:induction false} ScanDistinct(l: HostLedger, xs: seq<FileEntry>)
    requires DistinctIds(xs)
    ensures Scan(l, xs).updates == Fresh(l, xs)
    ensures forall k :: 0 <= k < |xs| && xs[k].updateTime > Stored(l, xs[k].id) ==>
              Stored(Scan(l, xs).ledger, xs[k].id) == xs[k].updateTime
    decreases |xs|
  {
    if xs != [] {
      var k := |xs| - 1;
      var pre := xs[..k];
      var x := xs[k];
      assert DistinctIds(pre) by {
        forall i, j | 0 <= i < j < |pre| ensures pre[i].id != pre[j].id {
          assert pre[i] == xs[i] && pre[j] == xs[j];
        }
      }
      ScanDistinct(l, pre);
      var d := Scan(l, pre);
      assert x.id !in d.updates by {
        ScanUpdatesSubsequence(l, pre);
        SubsequenceMembers(d.updates, Ids(pre));
        forall j | 0 <= j < k ensures Ids(pre)[j] != x.id {
          assert pre[j] == xs[j];
        }
      }
      assert Stored(d.ledger, x.id) == Stored(l, x.id) by {
        ScanFrame(l, pre);
      }
      forall j | 0 <= j < |xs| && xs[j].updateTime > Stored(l, xs[j].id)
        ensures Stored(Scan(l, xs).ledger, xs[j].id) == xs[j].updateTime
      {
        if j < k {
          assert pre[j] == xs[j];
          assert xs[j].id != x.id;
        }
      }
    }
  }

  /** The ledger shared by all routing calls (`file_updatetime_map`). */
  class ChangeTracker {
    var ledger: Ledger

    /** The ledger is empty when the process starts. */
    constructor ()
      ensures ledger == map[]
    {
      ledger := map[];
    }

    /** `filter_file_to_update`: report, in input order, the ids whose time
        exceeds the time stored for `host`, and store those times. The host
        gets a (possibly empty) ledger entry, as with a default dictionary. */
    method FilterFileToUpdate(host: Host, filesList: seq<FileEntry>) returns (needUpdate: seq<FileId>)
      modifies this
      ensures needUpdate == Scan(HostFiles(old(ledger), host), filesList).updates
      ensures ledger == old(ledger)[host := Scan(HostFiles(old(ledger), host), filesList).ledger]
      ensures forall h :: h != host ==> (h in ledger <==> h in old(ledger))
      ensures forall h :: h != host && h in old(ledger) ==> ledger[h] == old(ledger)[h]
      ensures forall id :: Stored(ledger[host], id) >= Stored(HostFiles(old(ledger), host), id)
    {
      var hostFiles := HostFiles(ledger, host);
      ghost var start := hostFiles;
      ledger := ledger[host := hostFiles];
      needUpdate := [];
      var i := 0;
      while i < |filesList|
        invariant 0 <= i <= |filesList|
        invariant Scan(start, filesList[..i]) == Diff(needUpdate, hostFiles)
        invariant ledger == old(ledger)[host := hostFiles]
      {
        var fl := filesList[i];
        ScanStep(start, filesList, i);
        var preUpdateTime := Stored(hostFiles, fl.id);
        if preUpdateTime < fl.updateTime {
          hostFiles := hostFiles[fl.id := fl.updateTime];
          ledger := ledger[host := hostFiles];
          needUpdate := needUpdate + [fl.id];
        }
        i := i + 1;
      }
      assert filesList[..i] == filesList;
      ScanFrame(start, filesList);
    }
  }
}
