/** `ensure_index`: an index kept up to date file by file, against rebuilding it from scratch. */
module KnowledgeIndex {
  import opened PyText

  /** A file of the vault; `raw` is None when it cannot be read. */
  datatype File = File(mtime: real, raw: Option<string>)
  type Vault = map<string, File>

  datatype FileRow = FileRow(mtime: real, contentHash: string)
  datatype Row = Row(notePath: string, heading: string, content: string, vector: seq<real>)
  /** The two tables, as last committed. */
  datatype Db = Db(files: map<string, FileRow>, blocks: seq<Row>)

  datatype Block = Block(heading: string, content: string)

  /** Content hash, chunker and embedder: fixed functions. */
  datatype Tools = Tools(hash: string -> string, chunk: string -> seq<Block>, embed: string -> seq<real>)

  const EMPTY := Db(map[], [])

  // ---- one file ----

  function EmbeddedText(b: Block): string {
    if b.heading != "" then b.heading + "\n" + b.content else b.content
  }

  /** Blocks whose embedding is empty are not stored. */
  function RowsOf(t: Tools, path: string, blocks: seq<Block>): seq<Row> {
    if blocks == [] then []
    else
      var b := blocks[|blocks| - 1];
      var v := t.embed(EmbeddedText(b));
      RowsOf(t, path, blocks[..|blocks| - 1]) + (if v == [] then [] else [Row(path, b.heading, b.content, v)])
  }

  function FileRows(t: Tools, path: string, raw: string): seq<Row> { RowsOf(t, path, t.chunk(raw)) }

  /** `DELETE ... WHERE note_path IN paths` */
  function Without(rows: seq<Row>, paths: set<string>): seq<Row> {
    if rows == [] then []
    else (if rows[0].notePath in paths then [] else [rows[0]]) + Without(rows[1..], paths)
  }

  /** `SELECT ... WHERE note_path = path` */
  function BlocksOf(rows: seq<Row>, path: string): seq<Row> {
    if rows == [] then []
    else (if rows[0].notePath == path then [rows[0]] else []) + BlocksOf(rows[1..], path)
  }

  function Abs(x: real): real { if x < 0.0 then -x else x }

  predicate UpToDate(t: Tools, existing: map<string, FileRow>, path: string, mtime: real, raw: string) {
    path in existing && Abs(existing[path].mtime - mtime) < 0.001 && existing[path].contentHash == t.hash(raw)
  }

  /** One turn of the file loop; every turn that writes ends in a commit. */
  function IndexFile(t: Tools, db: Db, existing: map<string, FileRow>, path: string, file: File, force: bool): Db {
    match file.raw
    case None => db
    case Some(raw) =>
      if UpToDate(t, existing, path, file.mtime, raw) && !force then db
      else Db(db.files[path := FileRow(file.mtime, t.hash(raw))],
              Without(db.blocks, {path}) + FileRows(t, path, raw))
  }

  // ---- a run ----

  ghost predicate ValidOrder(order: seq<string>, vault: Vault) {
    && (forall p :: p in order <==> p in vault)
    && (forall i, j :: 0 <= i < j < |order| ==> order[i] != order[j])
  }

  /** The database after the files of `order`. */
  ghost function IndexFiles(t: Tools, db: Db, existing: map<string, FileRow>, vault: Vault, order: seq<string>, force: bool): Db
    requires forall p :: p in order ==> p in vault
  {
    if order == [] then db
    else
      var n := |order| - 1;
      IndexFile(t, IndexFiles(t, db, existing, vault, order[..n], force), existing, order[n], vault[order[n]], force)
  }

  /** Where a run starts: a forced one first empties both tables and commits. */
  function Begin(db: Db, force: bool): Db { if force then EMPTY else db }

  function RemoveStale(db: Db, stale: set<string>): Db {
    Db(db.files - stale, Without(db.blocks, stale))
  }

  ghost function EnsureIndex(t: Tools, db: Db, vault: Vault, order: seq<string>, force: bool): Db
    requires ValidOrder(order, vault)
  {
    var start := Begin(db, force);
    RemoveStale(IndexFiles(t, start, start.files, vault, order, force), start.files.Keys - vault.Keys)
  }

  class KnowledgeBaseIndex {
    const tools: Tools
    var files: map<string, FileRow>
    var blocks: seq<Row>

    constructor (tools: Tools)
      ensures this.tools == tools && Tables() == EMPTY
    {
      this.tools := tools;
      files := map[];
      blocks := [];
    }

    ghost function Tables(): Db
      reads this
    {
      Db(files, blocks)
    }

    method WriteFile(path: string, mtime: real, raw: string)
      modifies this
      ensures Tables() == Db(old(files)[path := FileRow(mtime, tools.hash(raw))],
                             Without(old(blocks), {path}) + FileRows(tools, path, raw))
    {
      hide Without, EmbeddedText;
      var chunks := tools.chunk(raw);
      blocks := Without(blocks, {path});
      ghost var kept := blocks;
      for i := 0 to |chunks|
        invariant files == old(files) && blocks == kept + RowsOf(tools, path, chunks[..i])
      {
        assert chunks[..i + 1][..i] == chunks[..i];
        var vector := tools.embed(EmbeddedText(chunks[i]));
        if vector != [] {
          blocks := blocks + [Row(path, chunks[i].heading, chunks[i].content, vector)];
        }
      }
      assert chunks[..|chunks|] == chunks;
      files := files[path := FileRow(mtime, tools.hash(raw))];
    }

    method Ensure(vault: Vault, order: seq<string>, force: bool) returns (count: nat)
      requires ValidOrder(order, vault)
      modifies this
      ensures Tables() == EnsureIndex(tools, old(Tables()), vault, order, force)
      ensures count == |blocks|
    {
      if force {
        files, blocks := map[], [];
      }
      var existing := files;
      ghost var start := Tables();
      for i := 0 to |order|
        invariant Tables() == IndexFiles(tools, start, existing, vault, order[..i], force)
      {
        var path := order[i];
        assert order[..i + 1][..i] == order[..i];
        assert path in vault;
        var file := vault[path];
        if file.raw.Some? {
          var raw := file.raw.value;
          if !UpToDate(tools, existing, path, file.mtime, raw) || force {
            WriteFile(path, file.mtime, raw);
          }
        }
      }
      assert order[..|order|] == order;
      ghost var indexed := Tables();
      var stale := existing.Keys - vault.Keys;
      ghost var gone: set<string> := {};
      RemoveNothing(indexed);
      while stale != {}
        invariant gone + stale == existing.Keys - vault.Keys
        invariant Tables() == RemoveStale(indexed, gone)
        decreases stale
      {
        var p :| p in stale;
        RemoveOneMore(indexed, gone, p);
        blocks := Without(blocks, {p});
        files := files - {p};
        gone := gone + {p};
        stale := stale - {p};
      }
      count := |blocks|;
    }
  }

  lemma {:induction false} WithoutNothing(rows: seq<Row>)
    ensures Without(rows, {}) == rows
  {
    if rows != [] {
      WithoutNothing(rows[1..]);
      assert rows == [rows[0]] + rows[1..];
    }
  }

  lemma RemoveNothing(db: Db)
    ensures RemoveStale(db, {}) == db
  {
    WithoutNothing(db.blocks);
    assert db.files - {} == db.files;
  }

  lemma {:induction false} WithoutTwice(rows: seq<Row>, a: set<string>, b: set<string>)
    ensures Without(Without(rows, a), b) == Without(rows, a + b)
  {
    if rows != [] {
      WithoutTwice(rows[1..], a, b);
      var rest := Without(rows[1..], a);
      if rows[0].notePath !in a {
        assert ([rows[0]] + rest)[1..] == rest;
      } else {
        assert [] + rest == rest;
      }
    }
  }

  lemma RemoveOneMore(db: Db, gone: set<string>, p: string)
    ensures var d := RemoveStale(db, gone);
            Db(d.files - {p}, Without(d.blocks, {p})) == RemoveStale(db, gone + {p})
  {
    WithoutTwice(db.blocks, gone, {p});
    assert db.files - gone - {p} == db.files - (gone + {p});
  }

  // ---- selections ----

  lemma {:induction false} BlocksOfConcat(a: seq<Row>, b: seq<Row>, path: string)
    ensures BlocksOf(a + b, path) == BlocksOf(a, path) + BlocksOf(b, path)
  {
    if a == [] {
      assert a + b == b;
    } else {
      assert (a + b)[0] == a[0] && (a + b)[1..] == a[1..] + b;
      BlocksOfConcat(a[1..], b, path);
      var first := if a[0].notePath == path then [a[0]] else [];
      Reassociate(first, BlocksOf(a[1..], path), BlocksOf(b, path));
    }
  }

  lemma {:induction false} BlocksOfWithout(rows: seq<Row>, paths: set<string>, path: string)
    ensures BlocksOf(Without(rows, paths), path) == if path in paths then [] else BlocksOf(rows, path)
  {
    if rows != [] {
      BlocksOfWithout(rows[1..], paths, path);
      var rest := Without(rows[1..], paths);
      if rows[0].notePath !in paths {
        assert ([rows[0]] + rest)[1..] == rest;
      } else {
        assert [] + rest == rest;
      }
    }
  }

  lemma {:induction false} RowsBelong(t: Tools, path: string, blocks: seq<Block>, q: string)
    ensures BlocksOf(RowsOf(t, path, blocks), q) == if q == path then RowsOf(t, path, blocks) else []
  {
    if blocks != [] {
      var n := |blocks| - 1;
      var v := t.embed(EmbeddedText(blocks[n]));
      var init := RowsOf(t, path, blocks[..n]);
      RowsBelong(t, path, blocks[..n], q);
      if v != [] {
        var row := Row(path, blocks[n].heading, blocks[n].content, v);
        BlocksOfConcat(init, [row], q);
        assert [row][1..] == [];
      } else {
        assert init + [] == init;
      }
    }
  }

  lemma WriteEffect(t: Tools, rows: seq<Row>, path: string, raw: string, q: string)
    ensures BlocksOf(Without(rows, {path}) + FileRows(t, path, raw), q)
         == if q == path then FileRows(t, path, raw) else BlocksOf(rows, q)
  {
    BlocksOfConcat(Without(rows, {path}), FileRows(t, path, raw), q);
    BlocksOfWithout(rows, {path}, q);
    RowsBelong(t, path, t.chunk(raw), q);
    assert [] + FileRows(t, path, raw) == FileRows(t, path, raw);
    assert BlocksOf(rows, q) + [] == BlocksOf(rows, q);
  }

  // ---- the invariant of every committed state ----

  /** Some content explains what the tables hold for `path`. */
  predicate Explains(t: Tools, db: Db, path: string, raw: string)
    requires path in db.files
  {
    db.files[path].contentHash == t.hash(raw) && BlocksOf(db.blocks, path) == FileRows(t, path, raw)
  }

  ghost predicate Consistent(t: Tools, db: Db) {
    && (forall p :: p in db.files ==> exists raw :: Explains(t, db, p, raw))
    && (forall p :: p !in db.files ==> BlocksOf(db.blocks, p) == [])
  }

  lemma IndexFileConsistent(t: Tools, db: Db, existing: map<string, FileRow>, path: string, file: File, force: bool)
    requires Consistent(t, db)
    ensures Consistent(t, IndexFile(t, db, existing, path, file, force))
  {
    var d := IndexFile(t, db, existing, path, file, force);
    if d != db {
      var raw := file.raw.value;
      forall p ensures BlocksOf(d.blocks, p) == if p == path then FileRows(t, path, raw) else BlocksOf(db.blocks, p) {
        WriteEffect(t, db.blocks, path, raw, p);
      }
      assert Explains(t, d, path, raw);
      forall p | p in d.files ensures exists raw' :: Explains(t, d, p, raw') {
        if p != path {
          var raw' :| Explains(t, db, p, raw');
          assert Explains(t, d, p, raw');
        }
      }
    }
  }

  lemma {:induction false} IndexFilesConsistent(t: Tools, db: Db, existing: map<string, FileRow>, vault: Vault,
                                                order: seq<string>, force: bool)
    requires Consistent(t, db) && forall p :: p in order ==> p in vault
    ensures Consistent(t, IndexFiles(t, db, existing, vault, order, force))
  {
    if order != [] {
      var n := |order| - 1;
      IndexFilesConsistent(t, db, existing, vault, order[..n], force);
      IndexFileConsistent(t, IndexFiles(t, db, existing, vault, order[..n], force), existing, order[n], vault[order[n]], force);
    }
  }

  lemma RemoveStaleConsistent(t: Tools, db: Db, stale: set<string>)
    requires Consistent(t, db)
    ensures Consistent(t, RemoveStale(db, stale))
  {
    var d := RemoveStale(db, stale);
    forall p ensures BlocksOf(d.blocks, p) == if p in stale then [] else BlocksOf(db.blocks, p) {
      BlocksOfWithout(db.blocks, stale, p);
    }
    forall p | p in d.files ensures exists raw :: Explains(t, d, p, raw) {
      var raw :| Explains(t, db, p, raw);
      assert Explains(t, d, p, raw);
    }
  }

  // ---- histories ----

  /** Edits of the vault, runs that complete, and runs that die after some of their commits. */
  datatype Event =
    | Put(path: string, file: File)
    | Delete(path: string)
    | Complete(order: seq<string>, force: bool)
    | Crash(order: seq<string>, force: bool, processed: nat)

  datatype World = World(vault: Vault, db: Db)

  ghost predicate Possible(w: World, e: Event) {
    match e
    case Put(_, _) => true
    case Delete(_) => true
    case Complete(order, _) => ValidOrder(order, w.vault)
    case Crash(order, _, n) => ValidOrder(order, w.vault) && n <= |order|
  }

  ghost function Next(t: Tools, w: World, e: Event): World
    requires Possible(w, e)
  {
    match e
    case Put(path, file) => w.(vault := w.vault[path := file])
    case Delete(path) => w.(vault := w.vault - {path})
    case Complete(order, force) => w.(db := EnsureIndex(t, w.db, w.vault, order, force))
    case Crash(order, force, n) =>
      var start := Begin(w.db, force);
      w.(db := IndexFiles(t, start, start.files, w.vault, order[..n], force))
  }

  /** Worlds reachable from an empty index. */
  ghost predicate Reachable(t: Tools, w: World, history: seq<Event>)
    decreases |history|
  {
    if history == [] then w.db == EMPTY
    else
      var n := |history| - 1;
      exists v :: Reachable(t, v, history[..n]) && Possible(v, history[n]) && w == Next(t, v, history[n])
  }

  lemma NextConsistent(t: Tools, w: World, e: Event)
    requires Consistent(t, w.db) && Possible(w, e)
    ensures Consistent(t, Next(t, w, e).db)
  {
    match e
    case Put(_, _) =>
    case Delete(_) =>
    case Complete(order, force) =>
      var start := Begin(w.db, force);
      IndexFilesConsistent(t, start, start.files, w.vault, order, force);
      RemoveStaleConsistent(t, IndexFiles(t, start, start.files, w.vault, order, force), start.files.Keys - w.vault.Keys);
    case Crash(order, force, n) =>
      var start := Begin(w.db, force);
      IndexFilesConsistent(t, start, start.files, w.vault, order[..n], force);
  }

  lemma {:induction false} ReachableConsistent(t: Tools, w: World, history: seq<Event>)
    requires Reachable(t, w, history)
    ensures Consistent(t, w.db)
    decreases |history|
  {
    if history != [] {
      var n := |history| - 1;
      var v :| Reachable(t, v, history[..n]) && Possible(v, history[n]) && w == Next(t, v, history[n]);
      ReachableConsistent(t, v, history[..n]);
      NextConsistent(t, v, history[n]);
    }
  }

  // ---- a completed run equals a rebuild ----

  ghost predicate CollisionFree(hash: string -> string) {
    forall a, b :: hash(a) == hash(b) ==> a == b
  }

  /** After the loop: files already visited hold their current content, the others are untouched. */
  lemma {:induction false} IndexFilesEffect(t: Tools, db: Db, vault: Vault, order: seq<string>, force: bool, p: string)
    requires CollisionFree(t.hash) && Consistent(t, db)
    requires forall q :: q in order ==> q in vault
    requires forall i, j :: 0 <= i < j < |order| ==> order[i] != order[j]
    ensures var d := IndexFiles(t, db, db.files, vault, order, force);
            && (p in order && vault[p].raw.Some? ==>
                  p in d.files && BlocksOf(d.blocks, p) == FileRows(t, p, vault[p].raw.value))
            && (p !in order || vault[p].raw.None? ==>
                  (p in d.files <==> p in db.files) && BlocksOf(d.blocks, p) == BlocksOf(db.blocks, p))
  {
    if order != [] {
      var n := |order| - 1;
      var q := order[n];
      var init := order[..n];
      assert order == init + [q] && q !in init;
      IndexFilesEffect(t, db, vault, init, force, p);
      var d := IndexFiles(t, db, db.files, vault, init, force);
      if vault[q].raw.Some? {
        var raw := vault[q].raw.value;
        if UpToDate(t, db.files, q, vault[q].mtime, raw) && !force {
          var raw' :| Explains(t, db, q, raw');
          assert raw' == raw;
        } else {
          WriteEffect(t, d.blocks, q, raw, p);
        }
      }
    }
  }

  /** What a completed run leaves for a path. */
  lemma EnsureIndexEffect(t: Tools, db: Db, vault: Vault, order: seq<string>, force: bool, p: string)
    requires CollisionFree(t.hash) && Consistent(t, db) && ValidOrder(order, vault)
    ensures var d := EnsureIndex(t, db, vault, order, force);
            && (p in vault && vault[p].raw.Some? ==> BlocksOf(d.blocks, p) == FileRows(t, p, vault[p].raw.value))
            && (p !in vault ==> p !in d.files && BlocksOf(d.blocks, p) == [])
            && (p in vault && vault[p].raw.None? ==> BlocksOf(d.blocks, p) == BlocksOf(Begin(db, force).blocks, p))
  {
    var start := Begin(db, force);
    var mid := IndexFiles(t, start, start.files, vault, order, force);
    IndexFilesEffect(t, start, vault, order, force, p);
    BlocksOfWithout(mid.blocks, start.files.Keys - vault.Keys, p);
  }

  /** The main promise: after any history of edits, runs and crashes, a completed incremental run
      leaves for every readable or absent path exactly the blocks of a forced rebuild. */
  lemma IncrementalEqualsRebuild(t: Tools, w: World, history: seq<Event>, order: seq<string>, rebuildOrder: seq<string>, p: string)
    requires CollisionFree(t.hash) && Reachable(t, w, history)
    requires ValidOrder(order, w.vault) && ValidOrder(rebuildOrder, w.vault)
    requires p in w.vault ==> w.vault[p].raw.Some?
    ensures BlocksOf(EnsureIndex(t, w.db, w.vault, order, false).blocks, p)
         == BlocksOf(EnsureIndex(t, w.db, w.vault, rebuildOrder, true).blocks, p)
  {
    ReachableConsistent(t, w, history);
    EnsureIndexEffect(t, w.db, w.vault, order, false, p);
    EnsureIndexEffect(t, w.db, w.vault, rebuildOrder, true, p);
  }

  // ---- running again ----

  predicate Current(t: Tools, files: map<string, FileRow>, vault: Vault, p: string)
    requires p in vault
  {
    vault[p].raw.Some? ==> UpToDate(t, files, p, vault[p].mtime, vault[p].raw.value)
  }

  lemma {:induction false} IndexFilesCurrent(t: Tools, db: Db, vault: Vault, order: seq<string>, force: bool)
    requires forall q :: q in order ==> q in vault
    ensures var d := IndexFiles(t, db, db.files, vault, order, force);
            && (forall p :: p in order ==> Current(t, d.files, vault, p))
            && (forall p :: p in d.files ==> p in db.files || p in vault)
            && (forall p :: p in db.files && p !in order ==> p in d.files && d.files[p] == db.files[p])
            && (forall p :: p in db.files && p in order && !force && Current(t, db.files, vault, p) ==>
                              p in d.files && d.files[p] == db.files[p])
  {
    if order != [] {
      var n := |order| - 1;
      var q := order[n];
      IndexFilesCurrent(t, db, vault, order[..n], force);
      assert forall p :: p in order <==> p == q || p in order[..n];
    }
  }

  lemma CurrentFileStays(t: Tools, db: Db, vault: Vault, p: string)
    requires p in vault && Current(t, db.files, vault, p)
    ensures IndexFile(t, db, db.files, p, vault[p], false) == db
  {
  }

  lemma {:induction false} CurrentFilesStay(t: Tools, db: Db, vault: Vault, order: seq<string>)
    requires forall q :: q in order ==> q in vault && Current(t, db.files, vault, q)
    ensures IndexFiles(t, db, db.files, vault, order, false) == db
  {
    hide UpToDate;
    if order != [] {
      var n := |order| - 1;
      CurrentFilesStay(t, db, vault, order[..n]);
      CurrentFileStays(t, db, vault, order[n]);
    }
  }

  /** A second run right after a completed one leaves both tables exactly as they are. */
  lemma RunningAgainChangesNothing(t: Tools, db: Db, vault: Vault, order: seq<string>, force: bool, again: seq<string>)
    requires ValidOrder(order, vault) && ValidOrder(again, vault)
    ensures var d := EnsureIndex(t, db, vault, order, force); EnsureIndex(t, d, vault, again, false) == d
  {
    hide UpToDate;
    var start := Begin(db, force);
    var mid := IndexFiles(t, start, start.files, vault, order, force);
    var d := EnsureIndex(t, db, vault, order, force);
    IndexFilesCurrent(t, start, vault, order, force);
    forall p | p in vault ensures Current(t, d.files, vault, p) {
      StillCurrent(t, mid.files, d.files, vault, p);
    }
    CurrentFilesStay(t, d, vault, again);
    assert d.files.Keys - vault.Keys == {};
    RemoveNothing(d);
  }

  lemma StillCurrent(t: Tools, before: map<string, FileRow>, now: map<string, FileRow>, vault: Vault, p: string)
    requires p in vault && Current(t, before, vault, p)
    requires p in before ==> p in now && now[p] == before[p]
    ensures Current(t, now, vault, p)
  {
  }

  // ---- what the index holds ----

  /** The positions up to `n` that are wanted, in order. */
  predicate Picks(picked: seq<nat>, n: nat, wanted: nat -> bool) {
    && (forall k :: 0 <= k < |picked| ==> picked[k] < n && wanted(picked[k]))
    && (forall k, l :: 0 <= k < l < |picked| ==> picked[k] < picked[l])
    && (forall i: nat :: i < n && wanted(i) ==> i in picked)
  }

  function Embedding(t: Tools, b: Block): seq<real> {
    t.embed(if b.heading == "" then b.content else b.heading + "\n" + b.content)
  }

  function IsOf(rows: seq<Row>, path: string): nat -> bool {
    (i: nat) => i < |rows| && rows[i].notePath == path
  }

  function HasVector(t: Tools, blocks: seq<Block>): nat -> bool {
    (i: nat) => i < |blocks| && Embedding(t, blocks[i]) != []
  }

  /** In the order of the file, the rows of `path` are one for each of the blocks that has an embedding:
      its heading, its content and the embedding of both. */
  ghost predicate HoldsBlocks(t: Tools, rows: seq<Row>, path: string, blocks: seq<Block>) {
    exists at: seq<nat>, picked: seq<nat> ::
      && Picks(at, |rows|, IsOf(rows, path))
      && Picks(picked, |blocks|, HasVector(t, blocks))
      && |at| == |picked|
      && forall k :: 0 <= k < |at| ==>
           rows[at[k]] == Row(path, blocks[picked[k]].heading, blocks[picked[k]].content, Embedding(t, blocks[picked[k]]))
  }

  lemma PickLast(picked: seq<nat>, n: nat, wanted: nat -> bool, all: nat -> bool)
    requires Picks(picked, n, wanted) && forall i: nat :: i < n ==> (wanted(i) <==> all(i))
    ensures Picks(if all(n) then picked + [n] else picked, n + 1, all)
  {
    var r := if all(n) then picked + [n] else picked;
    assert forall k :: 0 <= k < |picked| ==> r[k] == picked[k];
    forall i: nat | i < n + 1 && all(i) ensures i in r {
      if i < n {
        assert i in picked;
      } else {
        assert r[|picked|] == n;
      }
    }
  }

  lemma PickNone(wanted: nat -> bool)
    ensures Picks([], 0, wanted)
  {
  }

  /** `rows` are those made of the picked blocks. */
  ghost predicate MadeOf(t: Tools, path: string, blocks: seq<Block>, picked: seq<nat>, rows: seq<Row>) {
    && |rows| == |picked|
    && forall k :: 0 <= k < |picked| ==>
         && picked[k] < |blocks|
         && rows[k] == Row(path, blocks[picked[k]].heading, blocks[picked[k]].content, Embedding(t, blocks[picked[k]]))
  }

  lemma MadeOfLast(t: Tools, path: string, blocks: seq<Block>, picked: seq<nat>, rows: seq<Row>)
    requires blocks != [] && MadeOf(t, path, blocks[..|blocks| - 1], picked, rows)
    ensures MadeOf(t, path, blocks, picked, rows)
    ensures var n := |blocks| - 1;
            MadeOf(t, path, blocks, picked + [n],
                   rows + [Row(path, blocks[n].heading, blocks[n].content, Embedding(t, blocks[n]))])
  {
    hide Embedding;
  }

  lemma {:induction false} RowsPicked(t: Tools, path: string, blocks: seq<Block>) returns (picked: seq<nat>)
    ensures Picks(picked, |blocks|, HasVector(t, blocks)) && MadeOf(t, path, blocks, picked, RowsOf(t, path, blocks))
  {
    hide Embedding, Picks;
    if blocks == [] {
      picked := [];
      PickNone(HasVector(t, blocks));
    } else {
      var n := |blocks| - 1;
      var init := RowsPicked(t, path, blocks[..n]);
      EmbeddingIs(t, blocks[n]);
      PickLast(init, n, HasVector(t, blocks[..n]), HasVector(t, blocks));
      MadeOfLast(t, path, blocks, init, RowsOf(t, path, blocks[..n]));
      hide MadeOf;
      picked := if Embedding(t, blocks[n]) != [] then init + [n] else init;
      assert RowsOf(t, path, blocks[..n]) + [] == RowsOf(t, path, blocks[..n]);
    }
  }

  lemma EmbeddingIs(t: Tools, b: Block)
    ensures Embedding(t, b) == t.embed(EmbeddedText(b))
  {
  }

  ghost predicate TakenFrom(rows: seq<Row>, at: seq<nat>, taken: seq<Row>) {
    |taken| == |at| && forall k :: 0 <= k < |at| ==> at[k] < |rows| && taken[k] == rows[at[k]]
  }

  lemma TakenLast(rows: seq<Row>, at: seq<nat>, taken: seq<Row>)
    requires rows != [] && TakenFrom(rows[..|rows| - 1], at, taken)
    ensures TakenFrom(rows, at, taken) && TakenFrom(rows, at + [|rows| - 1], taken + [rows[|rows| - 1]])
  {
  }

  lemma {:induction false} BlocksPicked(rows: seq<Row>, path: string) returns (at: seq<nat>)
    ensures Picks(at, |rows|, IsOf(rows, path)) && TakenFrom(rows, at, BlocksOf(rows, path))
  {
    hide Picks;
    if rows == [] {
      at := [];
      PickNone(IsOf(rows, path));
    } else {
      hide TakenFrom, BlocksOf;
      var n := |rows| - 1;
      var init := BlocksPicked(rows[..n], path);
      BlocksOfLast(rows, path);
      PickLast(init, n, IsOf(rows[..n], path), IsOf(rows, path));
      TakenLast(rows, init, BlocksOf(rows[..n], path));
      at := if rows[n].notePath == path then init + [n] else init;
    }
  }

  lemma BlocksOfOne(row: Row, path: string)
    ensures BlocksOf([row], path) == if row.notePath == path then [row] else []
  {
    assert [row][1..] == [];
  }

  lemma BlocksOfLast(rows: seq<Row>, path: string)
    requires rows != []
    ensures var n := |rows| - 1;
            BlocksOf(rows, path) == if rows[n].notePath == path then BlocksOf(rows[..n], path) + [rows[n]] else BlocksOf(rows[..n], path)
  {
    hide BlocksOf;
    var n := |rows| - 1;
    BlocksOfSnoc(rows[..n], rows[n], path);
    assert rows[..n] + [rows[n]] == rows;
  }

  lemma BlocksOfSnoc(rows: seq<Row>, r: Row, path: string)
    ensures BlocksOf(rows + [r], path) == if r.notePath == path then BlocksOf(rows, path) + [r] else BlocksOf(rows, path)
  {
    BlocksOfConcat(rows, [r], path);
    BlocksOfOne(r, path);
    hide *;
  }

  lemma NothingPicked(rows: seq<Row>, path: string, at: seq<nat>)
    requires Picks(at, |rows|, IsOf(rows, path)) && at == []
    ensures forall i :: 0 <= i < |rows| ==> rows[i].notePath != path
  {
    forall i | 0 <= i < |rows| ensures rows[i].notePath != path {
      assert IsOf(rows, path)(i) ==> i in at;
    }
  }

  /** The index does its job: after any history of edits, runs and crashes, a completed run, forced or
      not, holds exactly the blocks of every readable file and nothing of a file that is gone. */
  lemma IndexHoldsVault(t: Tools, w: World, history: seq<Event>, order: seq<string>, force: bool, p: string)
    requires CollisionFree(t.hash) && Reachable(t, w, history) && ValidOrder(order, w.vault)
    ensures var rows := EnsureIndex(t, w.db, w.vault, order, force).blocks;
            && (p in w.vault && w.vault[p].raw.Some? ==> HoldsBlocks(t, rows, p, t.chunk(w.vault[p].raw.value)))
            && (p !in w.vault ==> forall i :: 0 <= i < |rows| ==> rows[i].notePath != p)
  {
    ReachableConsistent(t, w, history);
    EnsureIndexEffect(t, w.db, w.vault, order, force, p);
    var rows := EnsureIndex(t, w.db, w.vault, order, force).blocks;
    hide Reachable, EnsureIndex, Consistent, Embedding, Picks;
    var at := BlocksPicked(rows, p);
    if p !in w.vault {
      NothingPicked(rows, p, at);
    }
    if p in w.vault && w.vault[p].raw.Some? {
      var picked := RowsPicked(t, p, t.chunk(w.vault[p].raw.value));
      assert |at| == |picked|;
    }
  }

  // ---- _split_long ----

  /** `text.rfind("\n\n", start, end)`, -1 for "not found". */
  function RFindBreak(text: string, start: nat, end: nat): (cut: int)
    requires end <= |text|
    ensures cut == -1 || (start <= cut <= end - 2 && text[cut] == '\n' && text[cut + 1] == '\n')
    decreases end
  {
    if end < start + 2 then -1
    else if text[end - 2] == '\n' && text[end - 1] == '\n' then end - 2
    else RFindBreak(text, start, end - 1)
  }

  /** Where the window at `start` ends; with a limit of 0 the loop over the windows stands still. */
  function PieceEnd(text: string, start: nat, maxChars: nat): (end: nat)
    requires start < |text|
    ensures start <= end <= |text| && end - start <= maxChars
    ensures start < end <==> maxChars >= 1
  {
    var end := if start + maxChars < |text| then start + maxChars else |text|;
    if end < |text| then
      var cut := RFindBreak(text, start, end);
      if cut > start + maxChars / 3 then cut else end
    else end
  }

  /** The raw pieces, before stripping. */
  function Pieces(text: string, start: nat, maxChars: nat): seq<string>
    requires start <= |text| && maxChars >= 1
    decreases |text| - start
  {
    if start == |text| then []
    else
      var end := PieceEnd(text, start, maxChars);
      [text[start..end]] + Pieces(text, end, maxChars)
  }

  function StripAll(pieces: seq<string>): seq<string> {
    if pieces == [] then []
    else (if Strip(pieces[0]) == "" then [] else [Strip(pieces[0])]) + StripAll(pieces[1..])
  }

  predicate ParagraphAt(text: string, b: int, start: nat, end: nat) {
    start <= b && b + 2 <= end <= |text| && text[b] == '\n' && text[b + 1] == '\n'
  }

  lemma {:induction false} RFindsLast(text: string, start: nat, end: nat)
    requires end <= |text|
    ensures var cut := RFindBreak(text, start, end);
            && (cut >= 0 ==> ParagraphAt(text, cut, start, end))
            && forall b :: ParagraphAt(text, b, start, end) ==> b <= cut
    decreases end
  {
    if end >= start + 2 && !(text[end - 2] == '\n' && text[end - 1] == '\n') {
      RFindsLast(text, start, end - 1);
      assert forall b :: ParagraphAt(text, b, start, end) ==> ParagraphAt(text, b, start, end - 1);
    }
  }

  /** A window that does not reach the end of the text ends at the last empty line beyond its first third,
      at the limit if there is none. */
  lemma PieceEndMeaning(text: string, start: nat, maxChars: nat)
    requires start < |text|
    ensures var end, limit := PieceEnd(text, start, maxChars), start + maxChars;
            if limit >= |text| then end == |text|
            else if exists b :: ParagraphAt(text, b, start, limit) && b > start + maxChars / 3 then
              ParagraphAt(text, end, start, limit) && forall b :: ParagraphAt(text, b, start, limit) ==> b <= end
            else end == limit
  {
    if start + maxChars < |text| {
      RFindsLast(text, start, start + maxChars);
    }
  }

  /** What the source's loop demands to end. */
  predicate CanSplit(text: string, maxChars: nat) { maxChars >= 1 || text == "" }

  function SplitLong(text: string, maxChars: nat): seq<string>
    requires CanSplit(text, maxChars)
  {
    if |text| <= maxChars then [text] else StripAll(Pieces(text, 0, maxChars))
  }

  lemma PiecesStep(text: string, start: nat, maxChars: nat)
    requires start < |text| && maxChars >= 1
    ensures var end := PieceEnd(text, start, maxChars);
            Pieces(text, start, maxChars) == [text[start..end]] + Pieces(text, end, maxChars)
  {
  }

  method ChooseEnd(text: string, start: nat, maxChars: nat) returns (end: nat)
    requires start < |text|
    ensures end == PieceEnd(text, start, maxChars)
  {
    end := if |text| < start + maxChars then |text| else start + maxChars;
    if end < |text| {
      var cut := RFindBreak(text, start, end);
      if cut > start + maxChars / 3 {
        end := cut;
      }
    }
  }

  method SplitLongText(text: string, maxChars: nat) returns (chunks: seq<string>)
    requires CanSplit(text, maxChars)
    ensures chunks == SplitLong(text, maxChars)
  {
    if |text| <= maxChars {
      return [text];
    }
    chunks := [];
    var start := 0;
    ghost var done: seq<string> := [];
    while start < |text|
      invariant 0 <= start <= |text|
      invariant done + Pieces(text, start, maxChars) == Pieces(text, 0, maxChars)
      invariant chunks == StripAll(done)
    {
      hide Strip, StripAll, Pieces, PieceEnd, RFindBreak;
      var end := ChooseEnd(text, start, maxChars);
      var piece := text[start..end];
      ghost var later := Pieces(text, end, maxChars);
      PiecesStep(text, start, maxChars);
      assert done + ([piece] + later) == (done + [piece]) + later;
      StripAllSnoc(done, piece);
      done := done + [piece];
      var chunk := Strip(piece);
      if chunk != "" {
        chunks := chunks + [chunk];
      }
      start := end;
    }
    assert done + [] == done;
  }

  lemma {:induction false} StripAllSnoc(pieces: seq<string>, piece: string)
    ensures StripAll(pieces + [piece]) == StripAll(pieces) + (if Strip(piece) == "" then [] else [Strip(piece)])
  {
    hide Strip;
    if pieces == [] {
      assert pieces + [piece] == [piece] && [piece][1..] == [];
    } else {
      assert (pieces + [piece])[1..] == pieces[1..] + [piece];
      StripAllSnoc(pieces[1..], piece);
    }
  }

  function Ink(s: string): string {
    if s == "" then "" else (if IsSpace(s[0]) then "" else [s[0]]) + Ink(s[1..])
  }

  function Joined(chunks: seq<string>): string {
    if chunks == [] then "" else chunks[0] + Joined(chunks[1..])
  }

  lemma {:induction false} InkConcat(a: string, b: string)
    ensures Ink(a + b) == Ink(a) + Ink(b)
  {
    if a == "" {
      assert a + b == b;
    } else {
      assert (a + b)[1..] == a[1..] + b;
      InkConcat(a[1..], b);
    }
  }

  lemma {:induction false} InkOfBlanks(s: string)
    requires AllSpace(s)
    ensures Ink(s) == ""
  {
    if s != "" { InkOfBlanks(s[1..]); }
  }

  lemma InkStrip(s: string)
    ensures Ink(Strip(s)) == Ink(s)
  {
    var a, b := StripSplit(s);
    InkConcat(a + Strip(s), b);
    InkConcat(a, Strip(s));
    InkOfBlanks(a);
    InkOfBlanks(b);
  }

  lemma {:induction false} StripAllKeepsInk(pieces: seq<string>)
    ensures Ink(Joined(StripAll(pieces))) == Ink(Joined(pieces))
  {
    if pieces != [] {
      var p, rest := pieces[0], StripAll(pieces[1..]);
      StripAllKeepsInk(pieces[1..]);
      InkStrip(p);
      InkConcat(p, Joined(pieces[1..]));
      if Strip(p) == "" {
        assert [] + rest == rest;
      } else {
        assert ([Strip(p)] + rest)[1..] == rest;
        InkConcat(Strip(p), Joined(rest));
      }
    }
  }

  lemma {:induction false} PiecesJoin(text: string, start: nat, maxChars: nat)
    requires start <= |text| && maxChars >= 1
    ensures Joined(Pieces(text, start, maxChars)) == text[start..]
    ensures forall i :: 0 <= i < |Pieces(text, start, maxChars)| ==> |Pieces(text, start, maxChars)[i]| <= maxChars
    decreases |text| - start
  {
    if start < |text| {
      var end := PieceEnd(text, start, maxChars);
      PiecesJoin(text, end, maxChars);
      assert text[start..] == text[start..end] + text[end..];
    }
  }

  lemma {:induction false} StripAllShort(pieces: seq<string>, n: nat)
    requires forall i :: 0 <= i < |pieces| ==> |pieces[i]| <= n
    ensures forall i :: 0 <= i < |StripAll(pieces)| ==> 0 < |StripAll(pieces)[i]| <= n
  {
    if pieces != [] {
      StripAllShort(pieces[1..], n);
      var a, b := StripSplit(pieces[0]);
    }
  }

  /** Splitting loses only blanks and never exceeds the limit. */
  lemma SplitLongConserves(text: string, maxChars: nat)
    requires CanSplit(text, maxChars)
    ensures Ink(Joined(SplitLong(text, maxChars))) == Ink(text)
    ensures forall i :: 0 <= i < |SplitLong(text, maxChars)| ==> |SplitLong(text, maxChars)[i]| <= maxChars
  {
    if |text| <= maxChars {
      assert Joined([text]) == text + Joined([text][1..]);
      assert text + "" == text;
    } else {
      var pieces := Pieces(text, 0, maxChars);
      PiecesJoin(text, 0, maxChars);
      StripAllKeepsInk(pieces);
      StripAllShort(pieces, maxChars);
      assert text[0..] == text;
    }
  }
}
