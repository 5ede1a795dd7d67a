/** Round-robin distribution of the resolved files over the read-only
    servers: file number `i` goes to `servers[i % |servers|]`. */
module Distributor {
  import opened Models
  import opened Seqs

  /** The server that receives file number `i`. */
  function TargetHost(servers: seq<Host>, i: nat): (h: Host)
    requires |servers| > 0
    ensures h in servers
  {
    servers[i % |servers|]
  }

  /** The entries that land on `h`, in catalog order. */
  function AssignedTo(entries: seq<FileEntry>, servers: seq<Host>, h: Host): seq<FileEntry>
    requires |servers| > 0 || entries == []
    decreases |entries|
  {
    if entries == [] then []
    else
      var k := |entries| - 1;
      AssignedTo(entries[..k], servers, h) + if TargetHost(servers, k) == h then [entries[k]] else []
  }

  /** The servers that receive at least one of the first `n` files. */
  function Hosts(n: nat, servers: seq<Host>): set<Host>
    requires |servers| > 0 || n == 0
  {
    set i | 0 <= i < n :: TargetHost(servers, i)
  }

  /** The routing map the round-robin loop builds, as a value. */
  function RoundRobin(entries: seq<FileEntry>, servers: seq<Host>): map<Host, seq<FileEntry>>
    requires |servers| > 0 || entries == []
  {
    map h | h in Hosts(|entries|, servers) :: AssignedTo(entries, servers, h)
  }

  /** The round-robin loop of `_route`: the routing map from host to the
      entries it serves. Its keys are the hosts that receive a file, each
      with the non-empty list of its entries in catalog order. */
  method Distribute(entries: seq<FileEntry>, servers: seq<Host>) returns (routing: map<Host, seq<FileEntry>>)
    requires |servers| > 0 || entries == []
    ensures routing == RoundRobin(entries, servers)
    ensures routing.Keys == Hosts(|entries|, servers)
    ensures forall h :: h in routing ==> routing[h] == AssignedTo(entries, servers, h) && routing[h] != []
    ensures forall h :: h !in routing ==> AssignedTo(entries, servers, h) == []
  {
    routing := map[];
    var i := 0;
    assert RoundRobin(entries[..0], servers) == map[] by {
      assert Hosts(0, servers) == {};
    }
    while i < |entries|
      invariant 0 <= i <= |entries|
      invariant routing == RoundRobin(entries[..i], servers)
    {
      var f := entries[i];
      var targetHost := servers[i % |servers|];
      RoundRobinStep(entries, servers, i);
      i := i + 1;
      var sub := if targetHost in routing then routing[targetHost] else [];
      routing := routing[targetHost := sub + [f]];
    }
    assert entries[..i] == entries;
    forall h
      ensures h in routing ==> routing[h] != []
      ensures h !in routing ==> AssignedTo(entries, servers, h) == []
    {
      AssignedToNonEmpty(entries, servers, h);
    }
  }

  /** One more file appends it to its target's list, creating the list if
      the target had none. */
  lemma RoundRobinStep(entries: seq<FileEntry>, servers: seq<Host>, i: nat)
    requires |servers| > 0
    requires i < |entries|
    ensures var m := RoundRobin(entries[..i], servers);
            var t := TargetHost(servers, i);
            RoundRobin(entries[..i + 1], servers) == m[t := (if t in m then m[t] else []) + [entries[i]]]
  {
    var m := RoundRobin(entries[..i], servers);
    var t := TargetHost(servers, i);
    var m' := RoundRobin(entries[..i + 1], servers);
    var x := m[t := (if t in m then m[t] else []) + [entries[i]]];
    HostsStep(i, servers);
    assert m'.Keys == x.Keys;
    forall h | h in m' ensures m'[h] == x[h] {
      AssignedToStep(entries, servers, i);
      if h == t {
        AssignedToNonEmpty(entries[..i], servers, t);
      }
    }
  }

  /** One more file adds its target to the hosts. */
  lemma HostsStep(n: nat, servers: seq<Host>)
    requires |servers| > 0
    ensures Hosts(n + 1, servers) == Hosts(n, servers) + {TargetHost(servers, n)}
  {
  }

  /** One more file extends its target's list, and only that list. */
  lemma AssignedToStep(entries: seq<FileEntry>, servers: seq<Host>, i: nat)
    requires |servers| > 0
    requires i < |entries|
    ensures forall h :: AssignedTo(entries[..i + 1], servers, h) ==
              AssignedTo(entries[..i], servers, h) + if TargetHost(servers, i) == h then [entries[i]] else []
  {
    assert entries[..i + 1][..i] == entries[..i];
  }

  /** A host has a non-empty list exactly when it is one of the hosts. */
  lemma {:induction false} AssignedToNonEmpty(entries: seq<FileEntry>, servers: seq<Host>, h: Host)
    requires |servers| > 0 || entries == []
    ensures AssignedTo(entries, servers, h) != [] <==> h in Hosts(|entries|, servers)
    decreases |entries|
  {
    if entries == [] {
      assert Hosts(0, servers) == {};
    } else {
      var k := |entries| - 1;
      AssignedToNonEmpty(entries[..k], servers, h);
      HostsStep(k, servers);
    }
  }

  /** Each host's list keeps the catalog order of its files, and with
      distinct file ids it has distinct ids too. */
  lemma {:induction false} AssignedInOrder(entries: seq<FileEntry>, servers: seq<Host>, h: Host)
    requires |servers| > 0 || entries == []
    ensures IsSubsequence(AssignedTo(entries, servers, h), entries)
    ensures DistinctIds(entries) ==> DistinctIds(AssignedTo(entries, servers, h))
    decreases |entries|
  {
    if entries != [] {
      var k := |entries| - 1;
      var pre := entries[..k];
      AssignedInOrder(pre, servers, h);
      var a := AssignedTo(pre, servers, h);
      assert entries[..k] == pre;
      if TargetHost(servers, k) == h {
        var b := a + [entries[k]];
        assert b[..|b| - 1] == a && b[|b| - 1] == entries[|entries| - 1];
        assert IsSubsequence(b, entries);
        assert AssignedTo(entries, servers, h) == b;
      } else {
        assert IsSubsequence(a, entries);
        assert AssignedTo(entries, servers, h) == a;
      }
      if DistinctIds(entries) {
        assert DistinctIds(pre) by {
          forall i, j | 0 <= i < j < |pre| ensures pre[i].id != pre[j].id {
            assert pre[i] == entries[i] && pre[j] == entries[j];
          }
        }
        SubsequenceMembers(a, pre);
        forall y | y in a ensures y.id != entries[k].id {
          var j :| 0 <= j < |pre| && pre[j] == y;
          assert pre[j] == entries[j];
        }
        if TargetHost(servers, k) == h {
          var b := a + [entries[k]];
          forall i, j | 0 <= i < j < |b| ensures b[i].id != b[j].id {
            if j == |a| {
              assert b[i] in a;
            } else {
              assert b[i] == a[i] && b[j] == a[j];
            }
          }
        }
      }
    }
  }

  /** The hosts are exactly the servers among the first `n` positions of the
      server list: every key is a server, and with at least as many files as
      servers every server receives one. */
  lemma HostsAreLeadingServers(n: nat, servers: seq<Host>)
    requires |servers| > 0 || n == 0
    ensures forall h :: h in Hosts(n, servers) <==> exists r :: 0 <= r < |servers| && r < n && servers[r] == h
  {
    forall h | h in Hosts(n, servers)
      ensures exists r :: 0 <= r < |servers| && r < n && servers[r] == h
    {
      var i :| 0 <= i < n && TargetHost(servers, i) == h;
      var r := i % |servers|;
      ModBelow(i, |servers|);
      assert servers[r] == h;
    }
    forall h | exists r :: 0 <= r < |servers| && r < n && servers[r] == h
      ensures h in Hosts(n, servers)
    {
      var r :| 0 <= r < |servers| && r < n && servers[r] == h;
      ModSmall(r, |servers|);
      assert TargetHost(servers, r) == h;
    }
  }

  /** A remainder is at most the number divided. */
  lemma ModBelow(i: nat, n: nat)
    requires n > 0
    ensures i % n <= i
  {
    if i >= n {
      assert i / n >= 1;
    }
  }

  /** A number below the divisor is its own remainder. */
  lemma ModSmall(r: nat, n: nat)
    requires r < n
    ensures r % n == r
  {
  }

  /** The multiset union of the file ids in the lists of the hosts in `hs`. */
  function Gathered(entries: seq<FileEntry>, servers: seq<Host>, hs: seq<Host>): multiset<FileId>
    requires |servers| > 0 || entries == []
    decreases |hs|
  {
    if hs == [] then multiset{}
    else multiset(Ids(AssignedTo(entries, servers, hs[0]))) + Gathered(entries, servers, hs[1..])
  }

  /** No repeated host names. */
  predicate DistinctHosts(hs: seq<Host>) {
    forall i, j :: 0 <= i < j < |hs| ==> hs[i] != hs[j]
  }

  /** Appending a file extends, by its id, only the list of its target. */
  lemma AssignedIdsAppend(entries: seq<FileEntry>, x: FileEntry, servers: seq<Host>, h: Host)
    requires |servers| > 0
    ensures Ids(AssignedTo(entries + [x], servers, h)) ==
              Ids(AssignedTo(entries, servers, h)) + if TargetHost(servers, |entries|) == h then [x.id] else []
  {
    assert (entries + [x])[..|entries|] == entries;
    var a := AssignedTo(entries, servers, h);
    assert Ids(a + [x]) == Ids(a) + [x.id];
  }

  /** The tail of a list of distinct names is distinct and lacks the head. */
  lemma DistinctTail(hs: seq<Host>)
    requires hs != [] && DistinctHosts(hs)
    ensures DistinctHosts(hs[1..]) && hs[0] !in hs[1..]
  {
    var rest := hs[1..];
    forall i, j | 0 <= i < j < |rest| ensures rest[i] != rest[j] {
      assert rest[i] == hs[i + 1] && rest[j] == hs[j + 1];
    }
    forall j | 0 <= j < |rest| ensures rest[j] != hs[0] {
      assert rest[j] == hs[j + 1];
    }
  }

  /** Adding one file adds its id to the lists of the hosts in `hs` exactly
      once if its target is among them, and not at all otherwise. */
  lemma {:induction false} GatheredStep(entries: seq<FileEntry>, x: FileEntry, servers: seq<Host>, hs: seq<Host>)
    requires |servers| > 0
    requires DistinctHosts(hs)
    ensures Gathered(entries + [x], servers, hs) ==
              Gathered(entries, servers, hs) + if TargetHost(servers, |entries|) in hs then multiset{x.id} else multiset{}
    decreases |hs|
  {
    if hs != [] {
      var rest := hs[1..];
      DistinctTail(hs);
      GatheredStep(entries, x, servers, rest);
      AssignedIdsAppend(entries, x, servers, hs[0]);
      var t := TargetHost(servers, |entries|);
      assert t in hs <==> t == hs[0] || t in rest;
    }
  }

  /** No file is lost or duplicated: over any list of distinct host names
      that includes every server, the hosts' lists together hold each file
      id exactly as often as the input does. */
  lemma {:induction false} AssignedConservation(entries: seq<FileEntry>, servers: seq<Host>, hs: seq<Host>)
    requires |servers| > 0 || entries == []
    requires DistinctHosts(hs)
    requires forall j :: 0 <= j < |servers| ==> servers[j] in hs
    ensures Gathered(entries, servers, hs) == multiset(Ids(entries))
    decreases |entries|
  {
    if entries == [] {
      GatheredEmpty(servers, hs);
    } else {
      var k := |entries| - 1;
      AssignedConservation(entries[..k], servers, hs);
      assert entries[..k] + [entries[k]] == entries;
      assert Ids(entries) == Ids(entries[..k]) + [entries[k].id];
      GatheredStep(entries[..k], entries[k], servers, hs);
    }
  }

  /** With no files, every host's list is empty. */
  lemma {:induction false} GatheredEmpty(servers: seq<Host>, hs: seq<Host>)
    ensures Gathered([], servers, hs) == multiset{}
    decreases |hs|
  {
    if hs != [] {
      GatheredEmpty(servers, hs[1..]);
    }
  }

  /** Multiplying by a natural number is monotone. */
  lemma {:induction false} MulMono(a: nat, b: nat, n: nat)
    requires a <= b
    ensures a * n <= b * n
    decreases b - a
  {
    if a < b {
      MulMono(a, b - 1, n);
      assert b * n == (b - 1) * n + n;
    }
  }

  /** Quotient and remainder are unique. */
  lemma DivModUnique(k: nat, n: nat, q: nat, m: nat)
    requires m < n && k == q * n + m
    ensures k / n == q && k % n == m
  {
    var q', m' := k / n, k % n;
    assert k == q' * n + m';
    if q' > q {
      MulMono(q + 1, q', n);
      assert false;
    } else if q' < q {
      MulMono(q' + 1, q, n);
      assert false;
    }
  }

  /** Advancing by one file moves the remainder on by one, wrapping into
      the next round. */
  lemma DivModNext(k: nat, n: nat)
    requires n > 0
    ensures (k + 1) / n == if k % n + 1 < n then k / n else k / n + 1
    ensures (k + 1) % n == if k % n + 1 < n then k % n + 1 else 0
  {
    var q, m := k / n, k % n;
    assert k == q * n + m;
    if m + 1 < n {
      DivModUnique(k + 1, n, q, m + 1);
    } else {
      assert k + 1 == (q + 1) * n + 0;
      DivModUnique(k + 1, n, q + 1, 0);
    }
  }

  /** How many of the first `k` files land on server position `r`, for
      distinct servers: one per full round, plus one in the partial round. */
  lemma {:induction false} AssignedCount(entries: seq<FileEntry>, servers: seq<Host>, r: nat)
    requires DistinctHosts(servers) && r < |servers|
    ensures |AssignedTo(entries, servers, servers[r])| ==
              |entries| / |servers| + if r < |entries| % |servers| then 1 else 0
    decreases |entries|
  {
    var n := |servers|;
    if entries == [] {
      DivModUnique(0, n, 0, 0);
    } else {
      var k := |entries| - 1;
      AssignedCount(entries[..k], servers, r);
      AssignedToStep(entries, servers, k);
      assert entries[..k + 1] == entries;
      DivModNext(k, n);
      assert TargetHost(servers, k) == servers[r] <==> k % n == r;
    }
  }

  /** Round-robin is fair: over distinct servers, any two servers' lists
      differ in length by at most one, and earlier positions never get fewer. */
  lemma AssignedBalanced(entries: seq<FileEntry>, servers: seq<Host>, r1: nat, r2: nat)
    requires DistinctHosts(servers) && r1 < |servers| && r2 < |servers|
    ensures |AssignedTo(entries, servers, servers[r1])| <= |AssignedTo(entries, servers, servers[r2])| + 1
    ensures r1 <= r2 ==> |AssignedTo(entries, servers, servers[r1])| >= |AssignedTo(entries, servers, servers[r2])|
  {
    AssignedCount(entries, servers, r1);
    AssignedCount(entries, servers, r2);
  }
}
