/** Incremental ingestion of the policy documents into the vector store.

    One run scans the current markdown files, compares each file's content
    hash with the registry saved by the previous run, deletes the chunks of
    every modified or deleted file from the store, adds the chunks of every
    new or modified file, and finally overwrites the registry with the
    hashes of the current scan.

    The content hash, the markdown splitter and the embedding are opaque
    collaborators: they enter as function parameters (the embedding as the
    store's own embedding function), deterministic by construction. */
module Ingestion {
  import opened Wrappers

  newtype byte = x: int | 0 <= x < 256
  type Bytes = seq<byte>

  /** A file found by the scan of the policy directory: its base name and
      its bytes. */
  datatype SourceFile = SourceFile(name: string, content: Bytes)

  /** A chunk produced by the splitter, tagged with the file it came from
      (the `source` metadata the loader records). */
  datatype Chunk = Chunk(source: string, text: string)

  type Embedding = seq<real>

  /** A stored chunk together with its embedding vector. */
  datatype Entry = Entry(chunk: Chunk, vector: Embedding)

  /** The writes a run makes to the store, in the order it makes them. */
  datatype StoreOp = DeleteSource(source: string) | AddChunks(chunks: seq<Chunk>)

  /** How a current file relates to the registry. */
  datatype Change = New | Modified | Unchanged

  // ---------------------------------------------------------------------
  // Sequences of entries and chunks

  /** The entries recorded for `source`, in store order. */
  function FromSource(entries: seq<Entry>, source: string): (r: seq<Entry>)
    ensures forall k :: 0 <= k < |r| ==> r[k] in entries && r[k].chunk.source == source
  {
    if entries == [] then []
    else (if entries[0].chunk.source == source then [entries[0]] else []) + FromSource(entries[1..], source)
  }

  /** The entries whose source is not in `sources`, in store order: the
      store after deleting each of `sources` by source. */
  function WithoutSources(entries: seq<Entry>, sources: set<string>): (r: seq<Entry>)
    ensures forall k :: 0 <= k < |r| ==> r[k] in entries && r[k].chunk.source !in sources
  {
    if entries == [] then []
    else (if entries[0].chunk.source in sources then [] else [entries[0]]) + WithoutSources(entries[1..], sources)
  }

  /** The chunks of `source`, in order. */
  function ChunksFrom(chunks: seq<Chunk>, source: string): seq<Chunk>
  {
    if chunks == [] then []
    else (if chunks[0].source == source then [chunks[0]] else []) + ChunksFrom(chunks[1..], source)
  }

  /** Each chunk paired with the embedding of its text. */
  function Embedded(chunks: seq<Chunk>, embed: string -> Embedding): (r: seq<Entry>)
    ensures |r| == |chunks|
    ensures forall k :: 0 <= k < |r| ==> r[k].chunk == chunks[k] && r[k].vector == embed(chunks[k].text)
  {
    seq(|chunks|, k requires 0 <= k < |chunks| => Entry(chunks[k], embed(chunks[k].text)))
  }

  function SetOf(s: seq<string>): set<string>
  {
    set x | x in s
  }

  predicate NoDuplicates(s: seq<string>)
  {
    forall i, j :: 0 <= i < j < |s| ==> s[i] != s[j]
  }

  /** Every vector is the embedding of its own chunk's text. */
  predicate EmbeddingsMatch(entries: seq<Entry>, embed: string -> Embedding)
  {
    forall k :: 0 <= k < |entries| ==> entries[k].vector == embed(entries[k].chunk.text)
  }

  // ---------------------------------------------------------------------
  // The store and the registry

  /** The vector store: its entries in insertion order, and the embedding
      function it was opened with. `ops` records every write, so that the
      order of a run's deletes and adds can be stated. */
  class VectorStore {
    const embed: string -> Embedding
    var entries: seq<Entry>
    ghost var ops: seq<StoreOp>

    /** Every stored vector is the embedding of its chunk's text. */
    ghost predicate Valid()
      reads this
    {
      EmbeddingsMatch(entries, embed)
    }

    constructor (embed: string -> Embedding)
      ensures Valid()
      ensures this.embed == embed && entries == [] && ops == []
    {
      this.embed := embed;
      entries := [];
      ops := [];
    }

    /** Delete every entry whose source metadata equals `source`; nothing
        happens when there is none. */
    method DeleteBySource(source: string)
      requires Valid()
      modifies this
      ensures Valid()
      ensures entries == WithoutSources(old(entries), {source})
      ensures ops == old(ops) + [DeleteSource(source)]
    {
      entries := WithoutSources(entries, {source});
      ops := ops + [DeleteSource(source)];
    }

    /** Embed each chunk and append it. */
    method AddDocuments(docs: seq<Chunk>)
      requires Valid()
      modifies this
      ensures Valid()
      ensures entries == old(entries) + Embedded(docs, embed)
      ensures ops == old(ops) + [AddChunks(docs)]
    {
      entries := entries + Embedded(docs, embed);
      ops := ops + [AddChunks(docs)];
    }
  }

  /** The registry file of the previous run: a map from file name to content
      hash, or `None` while the file does not exist. */
  class Registry {
    var file: Option<map<string, string>>

    constructor (file: Option<map<string, string>>)
      ensures this.file == file
    {
      this.file := file;
    }

    /** `load_state`: the saved map, or the empty map when nothing was
        saved yet. */
    method Load() returns (state: map<string, string>)
      ensures state == Known(file)
    {
      state := file.GetOr(map[]);
    }

    /** `save_state`: overwrite the registry with `state`. */
    method Save(state: map<string, string>)
      modifies this
      ensures file == Some(state)
    {
      file := Some(state);
    }
  }

  /** The map `load_state` returns for a registry file: the saved map, or
      the empty map when nothing was saved yet. */
  function Known(file: Option<map<string, string>>): (known: map<string, string>)
    ensures file.None? ==> known == map[]
    ensures file.Some? ==> known == file.value
  {
    file.GetOr(map[])
  }

  // ---------------------------------------------------------------------
  // The diff of one run, as functions of the registry and the scan

  predicate DistinctNames(files: seq<SourceFile>)
  {
    forall i, j :: 0 <= i < j < |files| ==> files[i].name != files[j].name
  }

  function Names(files: seq<SourceFile>): set<string>
  {
    set k | 0 <= k < |files| :: files[k].name
  }

  /** New when the registry does not know the name, Modified when it holds
      a different hash, Unchanged when it holds the same hash. */
  function Classify(known: map<string, string>, name: string, hash: string): (c: Change)
    ensures c == New <==> name !in known
    ensures c == Unchanged <==> name in known && known[name] == hash
  {
    if name !in known then New
    else if known[name] != hash then Modified
    else Unchanged
  }

  /** `process_document`: the chunks of one file, or none when loading or
      splitting it raises. */
  function ProcessDocument(f: SourceFile, split: Bytes -> Option<seq<string>>): (chunks: seq<Chunk>)
    ensures forall k :: 0 <= k < |chunks| ==> chunks[k].source == f.name
    ensures split(f.content).None? ==> chunks == []
    ensures split(f.content).Some? ==> |chunks| == |split(f.content).value|
  {
    match split(f.content)
    case None => []
    case Some(texts) => seq(|texts|, k requires 0 <= k < |texts| => Chunk(f.name, texts[k]))
  }

  /** The hashes of the scanned files, by name. */
  function CurrentHashes(files: seq<SourceFile>, hash: Bytes -> string): (m: map<string, string>)
    decreases |files|
  {
    if files == [] then map[]
    else
      var n := |files| - 1;
      CurrentHashes(files[..n], hash)[files[n].name := hash(files[n].content)]
  }

  /** The names of the modified files, in scan order. */
  function ModifiedNames(known: map<string, string>, files: seq<SourceFile>, hash: Bytes -> string): seq<string>
    decreases |files|
  {
    if files == [] then []
    else
      var n := |files| - 1;
      ModifiedNames(known, files[..n], hash)
        + (if Classify(known, files[n].name, hash(files[n].content)) == Modified then [files[n].name] else [])
  }

  /** The chunks of the new and modified files, in scan order. */
  function ChunksToAdd(known: map<string, string>, files: seq<SourceFile>, hash: Bytes -> string,
                       split: Bytes -> Option<seq<string>>): seq<Chunk>
    decreases |files|
  {
    if files == [] then []
    else
      var n := |files| - 1;
      ChunksToAdd(known, files[..n], hash, split)
        + (if Classify(known, files[n].name, hash(files[n].content)) != Unchanged
           then ProcessDocument(files[n], split) else [])
  }

  /** The registry names whose chunks a run deletes: those with a different
      current hash and those with no current file. */
  function Stale(known: map<string, string>, current: map<string, string>): set<string>
  {
    set n | n in known && (n !in current || known[n] != current[n])
  }

  /** The store a run leaves behind: stale sources deleted, then the chunks
      to add appended with their embeddings. */
  function Reconciled(entries: seq<Entry>, known: map<string, string>, files: seq<SourceFile>,
                      hash: Bytes -> string, split: Bytes -> Option<seq<string>>,
                      embed: string -> Embedding): seq<Entry>
  {
    WithoutSources(entries, Stale(known, CurrentHashes(files, hash)))
      + Embedded(ChunksToAdd(known, files, hash, split), embed)
  }

  function DeleteOps(sources: seq<string>): (ops: seq<StoreOp>)
    ensures |ops| == |sources|
    ensures forall k :: 0 <= k < |ops| ==> ops[k] == DeleteSource(sources[k])
  {
    seq(|sources|, k requires 0 <= k < |sources| => DeleteSource(sources[k]))
  }

  function AddOps(chunks: seq<Chunk>): seq<StoreOp>
  {
    if chunks == [] then [] else [AddChunks(chunks)]
  }

  /** No delete follows an add. */
  predicate DeletesBeforeAdds(run: seq<StoreOp>)
  {
    forall i, j :: 0 <= i < j < |run| && run[i].AddChunks? ==> run[j].AddChunks?
  }

  // ---------------------------------------------------------------------
  // The run

  /** The first half of the diff: hash every scanned file, collect the
      chunks of new and modified files, and list the modified files for
      removal, all in scan order. */
  method ScanFiles(known: map<string, string>, files: seq<SourceFile>, hash: Bytes -> string,
                   split: Bytes -> Option<seq<string>>)
    returns (currentHashes: map<string, string>, docsToAdd: seq<Chunk>, filesToRemove: seq<string>)
    ensures currentHashes == CurrentHashes(files, hash)
    ensures docsToAdd == ChunksToAdd(known, files, hash, split)
    ensures filesToRemove == ModifiedNames(known, files, hash)
  {
    currentHashes, docsToAdd, filesToRemove := map[], [], [];
    for i := 0 to |files|
      invariant currentHashes == CurrentHashes(files[..i], hash)
      invariant docsToAdd == ChunksToAdd(known, files[..i], hash, split)
      invariant filesToRemove == ModifiedNames(known, files[..i], hash)
    {
      var f := files[i];
      assert files[..i + 1][..i] == files[..i];
      var newHash := hash(f.content);
      currentHashes := currentHashes[f.name := newHash];
      if f.name !in known {
        docsToAdd := docsToAdd + ProcessDocument(f, split);
      } else if known[f.name] != newHash {
        filesToRemove := filesToRemove + [f.name];
        docsToAdd := docsToAdd + ProcessDocument(f, split);
      }
    }
    assert files[..|files|] == files;
  }

  /** The second half of the diff: append every registry name that has no
      current hash to the removal list. The registry is a map, so the order
      in which these names are appended is left open. */
  method AppendDeleted(known: map<string, string>, currentHashes: map<string, string>, modified: seq<string>)
    returns (filesToRemove: seq<string>)
    requires NoDuplicates(modified)
    requires forall x :: x in modified ==> x in currentHashes
    ensures |modified| <= |filesToRemove| && filesToRemove[..|modified|] == modified
    ensures forall x :: x in filesToRemove[|modified|..] <==> x in known && x !in currentHashes
    ensures NoDuplicates(filesToRemove)
  {
    filesToRemove := modified;
    var pending := known.Keys;
    while pending != {}
      invariant pending <= known.Keys
      invariant |modified| <= |filesToRemove| && filesToRemove[..|modified|] == modified
      invariant forall x :: x in filesToRemove[|modified|..] <==> x in known && x !in pending && x !in currentHashes
      invariant NoDuplicates(filesToRemove)
      decreases pending
    {
      var filename :| filename in pending;
      if filename !in currentHashes {
        var deleted := filesToRemove[|modified|..];
        assert filesToRemove == modified + deleted;
        assert filename !in deleted;
        filesToRemove := filesToRemove + [filename];
        assert filesToRemove[|modified|..] == deleted + [filename];
      }
      pending := pending - {filename};
    }
  }

  /** The diff phase of a run: the current hashes, the chunks to add, and
      the removal list (modified files in scan order, then deleted ones). */
  method Scan(known: map<string, string>, files: seq<SourceFile>, hash: Bytes -> string,
              split: Bytes -> Option<seq<string>>)
    returns (currentHashes: map<string, string>, docsToAdd: seq<Chunk>, filesToRemove: seq<string>)
    requires DistinctNames(files)
    ensures currentHashes == CurrentHashes(files, hash)
    ensures docsToAdd == ChunksToAdd(known, files, hash, split)
    ensures SetOf(filesToRemove) == Stale(known, currentHashes)
    ensures NoDuplicates(filesToRemove)
    ensures var modified := ModifiedNames(known, files, hash);
      |modified| <= |filesToRemove| && filesToRemove[..|modified|] == modified
  {
    var modified;
    currentHashes, docsToAdd, modified := ScanFiles(known, files, hash, split);
    ModifiedNamesExact(known, files, hash);
    filesToRemove := AppendDeleted(known, currentHashes, modified);
    forall x ensures x in filesToRemove <==> x in Stale(known, currentHashes) {
      assert filesToRemove == filesToRemove[..|modified|] + filesToRemove[|modified|..];
    }
  }

  /** The delete loop of a run: delete by source each name on the removal
      list, in list order. */
  method RemoveOutdated(store: VectorStore, filesToRemove: seq<string>)
    requires store.Valid()
    modifies store
    ensures store.Valid()
    ensures store.entries == WithoutSources(old(store.entries), SetOf(filesToRemove))
    ensures store.ops == old(store.ops) + DeleteOps(filesToRemove)
  {
    ghost var entries0, ops0 := store.entries, store.ops;
    assert SetOf(filesToRemove[..0]) == {};
    WithoutNothing(entries0);
    for k := 0 to |filesToRemove|
      invariant store.Valid()
      invariant store.entries == WithoutSources(entries0, SetOf(filesToRemove[..k]))
      invariant store.ops == ops0 + DeleteOps(filesToRemove[..k])
    {
      var filename := filesToRemove[k];
      WithoutSourcesTwice(entries0, SetOf(filesToRemove[..k]), filename);
      assert SetOf(filesToRemove[..k + 1]) == SetOf(filesToRemove[..k]) + {filename} by {
        assert filesToRemove[..k + 1] == filesToRemove[..k] + [filename];
      }
      assert DeleteOps(filesToRemove[..k + 1]) == DeleteOps(filesToRemove[..k]) + [DeleteSource(filename)];
      store.DeleteBySource(filename);
    }
    assert filesToRemove[..|filesToRemove|] == filesToRemove;
  }

  /** The store updates of a run: the removal list's sources deleted first,
      then the chunks to add appended in one call when there are any. */
  method ApplyChanges(store: VectorStore, filesToRemove: seq<string>, docsToAdd: seq<Chunk>)
    requires store.Valid()
    modifies store
    ensures store.Valid()
    ensures store.entries == WithoutSources(old(store.entries), SetOf(filesToRemove)) + Embedded(docsToAdd, store.embed)
    ensures store.ops == old(store.ops) + DeleteOps(filesToRemove) + AddOps(docsToAdd)
  {
    ghost var entries0, ops0 := store.entries, store.ops;
    ghost var kept := WithoutSources(entries0, SetOf(filesToRemove));
    if filesToRemove != [] {
      RemoveOutdated(store, filesToRemove);
    } else {
      assert SetOf(filesToRemove) == {};
      WithoutNothing(entries0);
      assert DeleteOps(filesToRemove) == [];
    }
    assert store.entries == kept;
    assert store.ops == ops0 + DeleteOps(filesToRemove);
    if docsToAdd != [] {
      store.AddDocuments(docsToAdd);
    } else {
      assert Embedded(docsToAdd, store.embed) == [];
    }
  }

  /** `ingest_data`: without an API key nothing is loaded, written or saved.
      Otherwise the stale sources are deleted one by one, then the new
      chunks are added in one call (when there are any), and the registry is
      overwritten with the current hashes, whatever happened to the chunking
      of individual files. `removed` is the removal list in the order the
      deletes were issued. */
  method IngestData(apiKeySet: bool, registry: Registry, store: VectorStore, files: seq<SourceFile>,
                    hash: Bytes -> string, split: Bytes -> Option<seq<string>>)
    returns (ghost removed: seq<string>)
    requires DistinctNames(files)
    requires store.Valid()
    modifies registry, store
    ensures store.Valid()
    ensures !apiKeySet ==> unchanged(registry) && unchanged(store) && removed == []
    ensures apiKeySet ==>
      var known := Known(old(registry.file));
      && registry.file == Some(CurrentHashes(files, hash))
      && store.entries == Reconciled(old(store.entries), known, files, hash, split, store.embed)
      && SetOf(removed) == Stale(known, CurrentHashes(files, hash))
      && NoDuplicates(removed)
      && store.ops == old(store.ops) + DeleteOps(removed) + AddOps(ChunksToAdd(known, files, hash, split))
    ensures DeletesBeforeAdds(store.ops[|old(store.ops)|..])
  {
    removed := [];
    if !apiKeySet {
      return;
    }
    var knownFiles := registry.Load();
    var currentHashes, docsToAdd, filesToRemove := Scan(knownFiles, files, hash, split);
    ghost var ops0 := store.ops;
    ApplyChanges(store, filesToRemove, docsToAdd);
    registry.Save(currentHashes);
    removed := filesToRemove;
    DeletesBeforeAddsRun(removed, docsToAdd);
    assert store.ops[|ops0|..] == DeleteOps(removed) + AddOps(docsToAdd);
  }

  // ---------------------------------------------------------------------
  // Lemmas about the sequence helpers

  lemma {:induction false} WithoutSourcesTwice(entries: seq<Entry>, sources: set<string>, s: string)
    ensures WithoutSources(WithoutSources(entries, sources), {s}) == WithoutSources(entries, sources + {s})
  {
    if entries != [] {
      WithoutSourcesTwice(entries[1..], sources, s);
      WithoutSourcesAppend(if entries[0].chunk.source in sources then [] else [entries[0]],
                           WithoutSources(entries[1..], sources), {s});
      if entries[0].chunk.source !in sources {
        assert [entries[0]][1..] == [];
      }
    }
  }

  lemma {:induction false} WithoutNothing(entries: seq<Entry>)
    ensures WithoutSources(entries, {}) == entries
  {
    if entries != [] {
      WithoutNothing(entries[1..]);
    }
  }

  lemma {:induction false} WithoutSourcesAppend(a: seq<Entry>, b: seq<Entry>, sources: set<string>)
    ensures WithoutSources(a + b, sources) == WithoutSources(a, sources) + WithoutSources(b, sources)
  {
    if a == [] {
      assert a + b == b;
    } else {
      assert (a + b)[0] == a[0];
      assert (a + b)[1..] == a[1..] + b;
      WithoutSourcesAppend(a[1..], b, sources);
    }
  }

  lemma {:induction false} FromSourceAppend(a: seq<Entry>, b: seq<Entry>, s: string)
    ensures FromSource(a + b, s) == FromSource(a, s) + FromSource(b, s)
  {
    if a == [] {
      assert a + b == b;
    } else {
      assert (a + b)[0] == a[0];
      assert (a + b)[1..] == a[1..] + b;
      FromSourceAppend(a[1..], b, s);
    }
  }

  lemma {:induction false} ChunksFromAppend(a: seq<Chunk>, b: seq<Chunk>, s: string)
    ensures ChunksFrom(a + b, s) == ChunksFrom(a, s) + ChunksFrom(b, s)
  {
    if a == [] {
      assert a + b == b;
    } else {
      assert (a + b)[0] == a[0];
      assert (a + b)[1..] == a[1..] + b;
      ChunksFromAppend(a[1..], b, s);
      var head := if a[0].source == s then [a[0]] else [];
      calc {
        ChunksFrom(a + b, s);
        head + ChunksFrom(a[1..] + b, s);
        head + (ChunksFrom(a[1..], s) + ChunksFrom(b, s));
        (head + ChunksFrom(a[1..], s)) + ChunksFrom(b, s);
      }
    }
  }

  /** Deleting a set of sources empties the deleted sources and leaves every
      other source's entries as they were. */
  lemma {:induction false} FromSourceWithout(entries: seq<Entry>, sources: set<string>, s: string)
    ensures FromSource(WithoutSources(entries, sources), s) == if s in sources then [] else FromSource(entries, s)
  {
    if entries != [] {
      FromSourceWithout(entries[1..], sources, s);
      FromSourceAppend(if entries[0].chunk.source in sources then [] else [entries[0]],
                       WithoutSources(entries[1..], sources), s);
      if entries[0].chunk.source !in sources {
        assert [entries[0]][1..] == [];
      }
    }
  }

  /** Embedding commutes with selecting a source. */
  lemma {:induction false} FromSourceEmbedded(chunks: seq<Chunk>, embed: string -> Embedding, s: string)
    ensures FromSource(Embedded(chunks, embed), s) == Embedded(ChunksFrom(chunks, s), embed)
  {
    if chunks != [] {
      var es := Embedded(chunks, embed);
      FromSourceEmbedded(chunks[1..], embed, s);
      assert es[1..] == Embedded(chunks[1..], embed);
      if chunks[0].source == s {
        assert Embedded([chunks[0]] + ChunksFrom(chunks[1..], s), embed)
          == [es[0]] + Embedded(ChunksFrom(chunks[1..], s), embed);
      }
    }
  }

  /** A run's store operations are its deletes followed by at most one add,
      so no delete ever follows an add. */
  lemma DeletesBeforeAddsRun(removed: seq<string>, added: seq<Chunk>)
    ensures DeletesBeforeAdds(DeleteOps(removed) + AddOps(added))
  {
    var run := DeleteOps(removed) + AddOps(added);
    assert forall k :: 0 <= k < |removed| ==> run[k].DeleteSource?;
    assert |run| <= |removed| + 1;
  }

  // ---------------------------------------------------------------------
  // Lemmas about the diff

  lemma {:induction false} NamesPrefix(files: seq<SourceFile>)
    requires files != []
    ensures Names(files) == Names(files[..|files| - 1]) + {files[|files| - 1].name}
  {
    var n := |files| - 1;
    forall x | x in Names(files) ensures x in Names(files[..n]) + {files[n].name} {
      var k :| 0 <= k < |files| && files[k].name == x;
      if k < n { assert files[..n][k] == files[k]; }
    }
    forall x | x in Names(files[..n]) ensures x in Names(files) {
      var k :| 0 <= k < n && files[..n][k].name == x;
      assert files[k].name == x;
    }
  }

  /** The registry saved at the end of a run has one entry per scanned file,
      holding that file's hash; a registry name with no current file has no
      entry any more. */
  lemma {:induction false} CurrentHashesExact(files: seq<SourceFile>, hash: Bytes -> string)
    requires DistinctNames(files)
    ensures CurrentHashes(files, hash).Keys == Names(files)
    ensures forall i :: 0 <= i < |files| ==> CurrentHashes(files, hash)[files[i].name] == hash(files[i].content)
    decreases |files|
  {
    if files != [] {
      var n := |files| - 1;
      CurrentHashesExact(files[..n], hash);
      NamesPrefix(files);
      forall i | 0 <= i < n
        ensures CurrentHashes(files, hash)[files[i].name] == hash(files[i].content)
      {
        assert files[..n][i] == files[i];
      }
    }
  }

  /** The modified names are exactly the scanned names that the registry
      knows with a different hash, each listed once. */
  lemma {:induction false} ModifiedNamesExact(known: map<string, string>, files: seq<SourceFile>, hash: Bytes -> string)
    requires DistinctNames(files)
    ensures forall x :: x in ModifiedNames(known, files, hash) <==>
      x in known && x in CurrentHashes(files, hash) && known[x] != CurrentHashes(files, hash)[x]
    ensures NoDuplicates(ModifiedNames(known, files, hash))
    ensures forall x :: x in ModifiedNames(known, files, hash) ==> x in Names(files)
    decreases |files|
  {
    if files != [] {
      var n := |files| - 1;
      var pre := files[..n];
      ModifiedNamesExact(known, pre, hash);
      CurrentHashesExact(files, hash);
      CurrentHashesExact(pre, hash);
      NamesPrefix(files);
      assert files[n].name !in Names(pre);
      forall x ensures x in ModifiedNames(known, files, hash) <==>
        x in known && x in CurrentHashes(files, hash) && known[x] != CurrentHashes(files, hash)[x]
      {
        if x in CurrentHashes(pre, hash) && x != files[n].name {
          assert CurrentHashes(files, hash)[x] == CurrentHashes(pre, hash)[x];
        }
      }
    }
  }

  /** The chunks a run adds for one source: for a scanned file, its fresh
      chunks when it is new or modified and none when unchanged; for any
      other name, none. */
  lemma {:induction false} ChunksToAddFrom(known: map<string, string>, files: seq<SourceFile>, hash: Bytes -> string,
                                           split: Bytes -> Option<seq<string>>, s: string)
    requires DistinctNames(files)
    ensures s !in Names(files) ==> ChunksFrom(ChunksToAdd(known, files, hash, split), s) == []
    ensures forall i :: 0 <= i < |files| && files[i].name == s ==>
      ChunksFrom(ChunksToAdd(known, files, hash, split), s)
        == if Classify(known, s, hash(files[i].content)) == Unchanged then [] else ProcessDocument(files[i], split)
    decreases |files|
  {
    if files != [] {
      var n := |files| - 1;
      var pre := files[..n];
      var f := files[n];
      ChunksToAddFrom(known, pre, hash, split, s);
      NamesPrefix(files);
      var tail := if Classify(known, f.name, hash(f.content)) != Unchanged then ProcessDocument(f, split) else [];
      ChunksFromAppend(ChunksToAdd(known, pre, hash, split), tail, s);
      ChunksFromOneSource(tail, f.name, s);
      forall i | 0 <= i < n && files[i].name == s
        ensures ChunksFrom(ChunksToAdd(known, files, hash, split), s)
          == if Classify(known, s, hash(files[i].content)) == Unchanged then [] else ProcessDocument(files[i], split)
      {
        assert pre[i] == files[i];
      }
    }
  }

  /** Chunks that all come from one source: selecting that source keeps
      them all, selecting another keeps none. */
  lemma {:induction false} ChunksFromOneSource(chunks: seq<Chunk>, source: string, s: string)
    requires forall k :: 0 <= k < |chunks| ==> chunks[k].source == source
    ensures ChunksFrom(chunks, s) == if s == source then chunks else []
  {
    if chunks != [] {
      ChunksFromOneSource(chunks[1..], source, s);
    }
  }

  /** A name is stale exactly when it is a modified scanned file or a
      registry name that was not scanned. */
  lemma StaleIsModifiedOrDeleted(known: map<string, string>, files: seq<SourceFile>, hash: Bytes -> string)
    requires DistinctNames(files)
    ensures forall x :: x in Stale(known, CurrentHashes(files, hash)) <==>
      (x in ModifiedNames(known, files, hash) || (x in known && x !in Names(files)))
  {
    ModifiedNamesExact(known, files, hash);
    CurrentHashesExact(files, hash);
  }

  /** Classification of one scanned file. A new file is added and never
      removed; a modified file is removed and its fresh chunks added; an
      unchanged file is neither removed nor re-chunked. */
  lemma ScannedFileTreatment(known: map<string, string>, files: seq<SourceFile>, hash: Bytes -> string,
                             split: Bytes -> Option<seq<string>>, i: int)
    requires DistinctNames(files) && 0 <= i < |files|
    ensures var f := files[i];
      var change := Classify(known, f.name, hash(f.content));
      && (f.name in Stale(known, CurrentHashes(files, hash)) <==> change == Modified)
      && ChunksFrom(ChunksToAdd(known, files, hash, split), f.name)
           == (if change == Unchanged then [] else ProcessDocument(f, split))
  {
    CurrentHashesExact(files, hash);
    ChunksToAddFrom(known, files, hash, split, files[i].name);
  }

  /** What a run leaves in the store for each source. A modified file's
      source holds exactly the embedded chunks of its new content; a new
      file's source gets those chunks after whatever it held; an unchanged
      file's source is untouched; a registry name without a current file
      holds nothing; any other source is untouched. */
  lemma ReconciledBySource(entries: seq<Entry>, known: map<string, string>, files: seq<SourceFile>,
                           hash: Bytes -> string, split: Bytes -> Option<seq<string>>,
                           embed: string -> Embedding, s: string)
    requires DistinctNames(files)
    ensures var after := FromSource(Reconciled(entries, known, files, hash, split, embed), s);
      && (forall i :: 0 <= i < |files| && files[i].name == s ==>
           after == match Classify(known, s, hash(files[i].content))
             case Modified => Embedded(ProcessDocument(files[i], split), embed)
             case New => FromSource(entries, s) + Embedded(ProcessDocument(files[i], split), embed)
             case Unchanged => FromSource(entries, s))
      && (s !in Names(files) ==> after == if s in known then [] else FromSource(entries, s))
  {
    var current := CurrentHashes(files, hash);
    var added := ChunksToAdd(known, files, hash, split);
    CurrentHashesExact(files, hash);
    ChunksToAddFrom(known, files, hash, split, s);
    FromSourceAppend(WithoutSources(entries, Stale(known, current)), Embedded(added, embed), s);
    FromSourceWithout(entries, Stale(known, current), s);
    FromSourceEmbedded(added, embed, s);
    assert Embedded([], embed) == [];
  }

  /** The store holds chunks only of sources the registry knows. */
  ghost predicate Registered(entries: seq<Entry>, registry: map<string, string>)
  {
    forall k :: 0 <= k < |entries| ==> entries[k].chunk.source in registry
  }

  /** A run keeps every stored vector the embedding of its chunk's text:
      the entries it keeps were consistent before, and the entries it adds
      are embedded with the store's own function. */
  lemma ReconciledKeepsEmbeddings(entries: seq<Entry>, known: map<string, string>, files: seq<SourceFile>,
                                  hash: Bytes -> string, split: Bytes -> Option<seq<string>>,
                                  embed: string -> Embedding)
    requires EmbeddingsMatch(entries, embed)
    ensures EmbeddingsMatch(Reconciled(entries, known, files, hash, split, embed), embed)
  {
    var kept: seq<Entry> := WithoutSources(entries, Stale(known, CurrentHashes(files, hash)));
    var added: seq<Entry> := Embedded(ChunksToAdd(known, files, hash, split), embed);
    var after: seq<Entry> := kept + added;
    forall k | 0 <= k < |after| ensures after[k].vector == embed(after[k].chunk.text) {
      if k < |kept| {
        assert kept[k] in entries;
      }
    }
  }

  /** A run keeps the store registered: starting from a store whose sources
      the old registry knows, every source left in the store is a key of
      the saved registry. */
  lemma RunKeepsStoreRegistered(entries: seq<Entry>, known: map<string, string>, files: seq<SourceFile>,
                                hash: Bytes -> string, split: Bytes -> Option<seq<string>>,
                                embed: string -> Embedding)
    requires DistinctNames(files) && Registered(entries, known)
    ensures Registered(Reconciled(entries, known, files, hash, split, embed), CurrentHashes(files, hash))
  {
    var current := CurrentHashes(files, hash);
    var kept := WithoutSources(entries, Stale(known, current));
    var added := ChunksToAdd(known, files, hash, split);
    CurrentHashesExact(files, hash);
    ChunksToAddSources(known, files, hash, split);
    var after := kept + Embedded(added, embed);
    forall k | 0 <= k < |after| ensures after[k].chunk.source in current {
      if k < |kept| {
        assert kept[k] in entries;
        assert after[k] == kept[k];
      } else {
        var j := k - |kept|;
        assert after[k] == Embedded(added, embed)[j];
        assert after[k].chunk == added[j];
        assert added[j].source in Names(files);
      }
    }
  }

  /** Every chunk to add comes from a scanned file. */
  lemma {:induction false} ChunksToAddSources(known: map<string, string>, files: seq<SourceFile>,
                                              hash: Bytes -> string, split: Bytes -> Option<seq<string>>)
    ensures forall k :: 0 <= k < |ChunksToAdd(known, files, hash, split)| ==>
      ChunksToAdd(known, files, hash, split)[k].source in Names(files)
    decreases |files|
  {
    if files != [] {
      var n := |files| - 1;
      ChunksToAddSources(known, files[..n], hash, split);
      NamesPrefix(files);
    }
  }

  /** Idempotence: a run whose registry equals the current scan has nothing
      stale and nothing to add, so it deletes nothing, adds nothing, leaves
      the store as it was and saves the same registry again. */
  lemma {:induction false} SecondRunIsNoOp(entries: seq<Entry>, files: seq<SourceFile>, hash: Bytes -> string,
                                           split: Bytes -> Option<seq<string>>, embed: string -> Embedding)
    requires DistinctNames(files)
    ensures var current := CurrentHashes(files, hash);
      && Stale(current, current) == {}
      && ChunksToAdd(current, files, hash, split) == []
      && Reconciled(entries, current, files, hash, split, embed) == entries
  {
    var current := CurrentHashes(files, hash);
    NothingToAddWhenUnchanged(current, files, files, hash, split);
    WithoutNothing(entries);
    assert Embedded([], embed) == [];
  }

  lemma {:induction false} NothingToAddWhenUnchanged(known: map<string, string>, files: seq<SourceFile>,
                                                     scanned: seq<SourceFile>, hash: Bytes -> string,
                                                     split: Bytes -> Option<seq<string>>)
    requires DistinctNames(scanned) && known == CurrentHashes(scanned, hash)
    requires forall k :: 0 <= k < |files| ==> files[k] in scanned
    ensures ChunksToAdd(known, files, hash, split) == []
    decreases |files|
  {
    if files != [] {
      var n := |files| - 1;
      NothingToAddWhenUnchanged(known, files[..n], scanned, hash, split);
      CurrentHashesExact(scanned, hash);
      assert files[n] in scanned;
      var i :| 0 <= i < |scanned| && scanned[i] == files[n];
      assert Classify(known, files[n].name, hash(files[n].content)) == Unchanged;
    }
  }

  /** The registry is saved even for a file whose chunking failed. Such a
      file, if new or modified, leaves its source empty in the store (given
      a registered store), and since the saved hash matches its content,
      the next run with the same files treats it as unchanged and adds
      nothing for it: the document stays out of the index until its
      content changes. */
  lemma FailedDocumentStaysOut(entries: seq<Entry>, known: map<string, string>, files: seq<SourceFile>,
                               hash: Bytes -> string, split: Bytes -> Option<seq<string>>,
                               embed: string -> Embedding, i: int)
    requires DistinctNames(files) && Registered(entries, known) && 0 <= i < |files|
    requires split(files[i].content).None?
    requires Classify(known, files[i].name, hash(files[i].content)) != Unchanged
    ensures var f, current := files[i], CurrentHashes(files, hash);
      var after := Reconciled(entries, known, files, hash, split, embed);
      && f.name in current && current[f.name] == hash(f.content)
      && FromSource(after, f.name) == []
      && Classify(current, f.name, hash(f.content)) == Unchanged
      && FromSource(Reconciled(after, current, files, hash, split, embed), f.name) == []
  {
    var f := files[i];
    var current := CurrentHashes(files, hash);
    var after := Reconciled(entries, known, files, hash, split, embed);
    CurrentHashesExact(files, hash);
    ReconciledBySource(entries, known, files, hash, split, embed, f.name);
    if f.name !in known {
      NoEntriesOfUnknownSource(entries, known, f.name);
    }
    assert Embedded([], embed) == [];
    SecondRunIsNoOp(after, files, hash, split, embed);
  }

  lemma {:induction false} NoEntriesOfUnknownSource(entries: seq<Entry>, registry: map<string, string>, s: string)
    requires Registered(entries, registry) && s !in registry
    ensures FromSource(entries, s) == []
  {
    if entries != [] {
      NoEntriesOfUnknownSource(entries[1..], registry, s);
    }
  }
}
