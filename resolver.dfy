/** Resolution of a collection name and optional partition tags into the
    files to serve: the membership condition on `Tables`, the reduction of
    the matched rows to the collection ids to search, and the file query. */
module Resolver {
  import opened Models
  import opened Seqs

  /** The tag that names a collection's own default partition. */
  const DefaultPartitionTag := "_default"

  /** The boolean filter built with `and_`/`or_` over `Tables` columns. */
  datatype TableCond =
    | TableIdIs(value: string)
    | OwnerTableIs(value: string)
    | StateIsNot(state: TableState)
    | And(left: TableCond, right: TableCond)
    | Or(left: TableCond, right: TableCond)

  /** Whether row `t` satisfies `cond`. */
  predicate Holds(cond: TableCond, t: Table) {
    match cond
    case TableIdIs(v) => t.tableId == v
    case OwnerTableIs(v) => t.ownerTable == v
    case StateIsNot(s) => t.state != s
    case And(a, b) => Holds(a, t) && Holds(b, t)
    case Or(a, b) => Holds(a, t) || Holds(b, t)
  }

  /** The filter `_route` builds; `tags == []` stands for absent or empty tags. */
  function Condition(name: string, tags: seq<string>): TableCond {
    if tags == [] then
      And(Or(TableIdIs(name), OwnerTableIs(name)), StateIsNot(ToDelete))
    else
      var cond := And(StateIsNot(ToDelete), OwnerTableIs(name));
      if DefaultPartitionTag in tags then Or(cond, And(TableIdIs(name), StateIsNot(ToDelete)))
      else cond
  }

  /** The rows a request covers, in words: live rows that are the collection
      or one of its partitions; with tags, only its partitions, plus the
      collection itself when the default partition is asked for. */
  predicate Member(t: Table, name: string, tags: seq<string>) {
    t.state != ToDelete &&
    if tags == [] then t.tableId == name || t.ownerTable == name
    else t.ownerTable == name || (DefaultPartitionTag in tags && t.tableId == name)
  }

  /** The built filter selects exactly the member rows. */
  lemma ConditionSelectsMembers(name: string, tags: seq<string>, t: Table)
    ensures Holds(Condition(name, tags), t) <==> Member(t, name, tags)
  {
    var own := And(StateIsNot(ToDelete), OwnerTableIs(name));
    var self := And(TableIdIs(name), StateIsNot(ToDelete));
    assert Holds(own, t) <==> t.state != ToDelete && t.ownerTable == name;
    assert Holds(self, t) <==> t.state != ToDelete && t.tableId == name;
    if tags != [] && DefaultPartitionTag in tags {
      assert Condition(name, tags) == Or(own, self);
    }
  }

  /** The rows the `Tables` query returns, in catalog order. */
  function Matched(catalog: seq<Table>, name: string, tags: seq<string>): seq<Table> {
    Filter(catalog, t => Holds(Condition(name, tags), t))
  }

  /** The query returns exactly the member rows of the catalog, and it is
      empty (the collection is not found) exactly when there are none. */
  lemma MatchedMembers(catalog: seq<Table>, name: string, tags: seq<string>)
    ensures forall t :: t in Matched(catalog, name, tags) <==> t in catalog && Member(t, name, tags)
    ensures Matched(catalog, name, tags) == [] <==> forall t :: t in catalog ==> !Member(t, name, tags)
    ensures IsSubsequence(Matched(catalog, name, tags), catalog)
  {
    forall t {
      ConditionSelectsMembers(name, tags, t);
    }
    var m := Matched(catalog, name, tags);
    if m != [] {
      assert m[0] in m;
    }
  }

  /** Some requested tag matches the partition's tag (`re.match(tag, partition_tag)`). */
  predicate TagMatches(tags: seq<string>, partitionTag: string, matches: (string, string) -> bool) {
    exists k :: 0 <= k < |tags| && matches(tags[k], partitionTag)
  }

  /** What one matched row adds to `collection_list`: at most one id. */
  function Contribution(t: Table, name: string, tags: seq<string>, matches: (string, string) -> bool): (r: seq<string>)
    ensures |r| <= 1
  {
    if tags == [] then [t.tableId]
    else if t.tableId == name then [name]
    else if TagMatches(tags, t.partitionTag, matches) then [t.tableId]
    else []
  }

  /** `collection_list`: the contributions of the matched rows, in order. */
  function CollectionIds(ts: seq<Table>, name: string, tags: seq<string>, matches: (string, string) -> bool): seq<string>
    decreases |ts|
  {
    if ts == [] then []
    else CollectionIds(ts[..|ts| - 1], name, tags, matches) + Contribution(ts[|ts| - 1], name, tags, matches)
  }

  /** The table id of every row, in order (the untagged list comprehension). */
  function TableIds(ts: seq<Table>): seq<string> {
    seq(|ts|, k requires 0 <= k < |ts| => ts[k].tableId)
  }

  /** Without tags, every matched row contributes its own table id. */
  lemma {:induction false} CollectionIdsUntagged(ts: seq<Table>, name: string, matches: (string, string) -> bool)
    ensures CollectionIds(ts, name, [], matches) == TableIds(ts)
    decreases |ts|
  {
    if ts != [] {
      CollectionIdsUntagged(ts[..|ts| - 1], name, matches);
    }
  }

  /** Each row contributes at most one id, so the list is no longer than the rows. */
  lemma {:induction false} CollectionIdsAtMostOnePerRow(ts: seq<Table>, name: string, tags: seq<string>, matches: (string, string) -> bool)
    ensures |CollectionIds(ts, name, tags, matches)| <= |ts|
    decreases |ts|
  {
    if ts != [] {
      CollectionIdsAtMostOnePerRow(ts[..|ts| - 1], name, tags, matches);
    }
  }

  /** With tags, an id is in the list exactly when it is the requested name
      and the collection row itself was matched, or it is the table id of a
      matched partition whose tag some requested tag matches. */
  lemma {:induction false} CollectionIdsTagged(ts: seq<Table>, name: string, tags: seq<string>, matches: (string, string) -> bool, x: string)
    requires tags != []
    ensures x in CollectionIds(ts, name, tags, matches) <==>
              exists t :: t in ts && x == t.tableId &&
                (t.tableId == name || TagMatches(tags, t.partitionTag, matches))
    decreases |ts|
  {
    if ts != [] {
      var k := |ts| - 1;
      CollectionIdsTagged(ts[..k], name, tags, matches, x);
      assert forall t :: t in ts <==> t in ts[..k] || t == ts[k];
    }
  }

  /** The reduction loop of `_route`: without tags the list of table ids;
      with tags, for each row the name itself when the row is the
      collection, otherwise its table id on the first tag that matches. */
  method CollectionList(collections: seq<Table>, name: string, tags: seq<string>, matches: (string, string) -> bool)
    returns (list: seq<string>)
    ensures list == CollectionIds(collections, name, tags, matches)
  {
    if tags == [] {
      list := seq(|collections|, k requires 0 <= k < |collections| => collections[k].tableId);
      CollectionIdsUntagged(collections, name, matches);
      return;
    }
    list := [];
    var i := 0;
    while i < |collections|
      invariant 0 <= i <= |collections|
      invariant list == CollectionIds(collections[..i], name, tags, matches)
    {
      var collection := collections[i];
      assert collections[..i + 1][..i] == collections[..i];
      if collection.tableId == name {
        list := list + [name];
      } else {
        var j := 0;
        while j < |tags|
          invariant 0 <= j <= |tags|
          invariant list == CollectionIds(collections[..i], name, tags, matches)
          invariant forall k :: 0 <= k < j ==> !matches(tags[k], collection.partitionTag)
        {
          if matches(tags[j], collection.partitionTag) {
            list := list + [collection.tableId];
            break;
          }
          j := j + 1;
        }
      }
      i := i + 1;
    }
    assert collections[..i] == collections;
  }

  /** Whether a file row is served: raw, to-index or index, and belonging to
      one of the collection ids to search. */
  predicate Routable(f: TableFile, ids: seq<string>) {
    (f.fileType == Raw || f.fileType == ToIndex || f.fileType == Index) && f.tableId in ids
  }

  /** The rows the `TableFiles` query returns, in catalog order. */
  function RoutableFiles(files: seq<TableFile>, ids: seq<string>): (r: seq<TableFile>)
    ensures forall f :: f in r <==> f in files && Routable(f, ids)
    ensures IsSubsequence(r, files)
  {
    Filter(files, f => Routable(f, ids))
  }

  /** The `(id, update time)` pairs of the file rows, in order. */
  function Entries(files: seq<TableFile>): seq<FileEntry> {
    seq(|files|, k requires 0 <= k < |files| => FileEntry(files[k].id, files[k].updatedTime))
  }

  /** A subsequence of file rows with distinct ids has distinct ids. */
  lemma {:induction false} SubsequenceDistinctFiles(a: seq<TableFile>, b: seq<TableFile>)
    requires IsSubsequence(a, b) && DistinctFileIds(b)
    ensures DistinctFileIds(a)
    decreases |b|
  {
    if a != [] {
      var b' := b[..|b| - 1];
      assert DistinctFileIds(b') by {
        forall i, j | 0 <= i < j < |b'| ensures b'[i].id != b'[j].id {
          assert b'[i] == b[i] && b'[j] == b[j];
        }
      }
      var a' := a[..|a| - 1];
      if a[|a| - 1] == b[|b| - 1] && IsSubsequence(a', b') {
        SubsequenceDistinctFiles(a', b');
        SubsequenceMembers(a', b');
        forall i, j | 0 <= i < j < |a| ensures a[i].id != a[j].id {
          if j == |a| - 1 {
            assert a[i] == a'[i] && a'[i] in b';
            var k :| 0 <= k < |b'| && b'[k] == a'[i];
            assert b'[k] == b[k];
          } else {
            assert a[i] == a'[i] && a[j] == a'[j];
          }
        }
      } else {
        SubsequenceDistinctFiles(a, b');
      }
    }
  }

  /** The `TableFiles` rows have distinct ids (their primary key), so the
      pairs handed to the round-robin loop have distinct ids too. */
  lemma EntriesDistinct(files: seq<TableFile>, ids: seq<string>)
    requires DistinctFileIds(files)
    ensures DistinctIds(Entries(RoutableFiles(files, ids)))
  {
    var r := RoutableFiles(files, ids);
    SubsequenceDistinctFiles(r, files);
    var e := Entries(r);
    forall i, j | 0 <= i < j < |e| ensures e[i].id != e[j].id {
      assert e[i].id == r[i].id && e[j].id == r[j].id;
    }
  }
}
