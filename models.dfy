/** The catalog rows the router reads (the `Tables` and `TableFiles` models)
    and the (id, update time) pairs it hands to the change tracker. */
module Models {

  /** A server node name, as the read-only topology lists it. */
  type Host = string

  /** A file id in the string form the router uses as a ledger key. */
  type FileId = string

  /** Lifecycle of a collection row; only `ToDelete` matters to routing,
      so every other state is `OtherState`. */
  datatype TableState = ToDelete | OtherState

  /** The kinds of a file row; only raw, to-index and index files are
      served, so every other kind is `OtherType`. */
  datatype FileType = Raw | ToIndex | Index | OtherType

  /** A row of `Tables`: a collection (empty `ownerTable`) or one of its partitions. */
  datatype Table = Table(tableId: string, ownerTable: string, state: TableState, partitionTag: string)

  /** A row of `TableFiles`: one storage segment of a collection. */
  datatype TableFile = TableFile(id: FileId, tableId: string, fileType: FileType, updatedTime: int)

  /** The pair `(str(f.id), int(f.updated_time))` the round-robin loop collects. */
  datatype FileEntry = FileEntry(id: FileId, updateTime: int)

  /** The ids of a list of entries, in order (`[f[0] for f in files]`). */
  function Ids(xs: seq<FileEntry>): seq<FileId> {
    seq(|xs|, k requires 0 <= k < |xs| => xs[k].id)
  }

  /** No file id occurs twice (file ids are the catalog's primary key). */
  predicate DistinctIds(xs: seq<FileEntry>) {
    forall i, j :: 0 <= i < j < |xs| ==> xs[i].id != xs[j].id
  }

  /** No file row id occurs twice (`id` is the primary key of `TableFiles`). */
  predicate DistinctFileIds(fs: seq<TableFile>) {
    forall i, j :: 0 <= i < j < |fs| ==> fs[i].id != fs[j].id
  }
}
