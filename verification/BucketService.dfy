/** The life of capture buckets: CreateRawBucket, AppendRawBucket and CloseRawBucket of
    internal/core/ingest.go and OrganizeCaptureBucket of internal/core/plans.go, with
    edits by others in between. Writes to the bucket rows succeed. */
module BucketService {
  import opened Text
  import opened Paths
  import opened Plans
  import opened VaultOps
  import opened Effects
  import opened Executor
  import opened Fences
  import opened Buckets
  import PathLocks
  import Policy

  datatype Status = Active | Closed | Organized | HashMismatch | Expired

  datatype Bucket = Bucket(sourceKey: string, path: string, status: Status, count: nat, hash: string, expires: int)

  /** What a bucket's note should say. */
  datatype Book = Book(header: Header, updated: string, entries: seq<Entry>) {
    predicate Valid() { header.Valid() && OneLine(updated) && entries != [] && AllValid(entries) }
    function File(): string { BucketFile(header, updated, entries) }
  }

  /** The book of a new bucket. */
  function FirstBook(h: Header, text: string): Book {
    Book(h, h.created, [Entry(text, h.source, h.created)])
  }

  /** A book with one more captured text. */
  function WithEntry(book: Book, e: Entry): Book {
    book.(updated := e.stamp, entries := book.entries + [e])
  }

  function OneOpPlan(planId: string, jobId: string, kind: OpKind, path: string, before: string, text: string): Plan {
    Plan(planId, jobId, Low, false, "raw bucket", [jobId], [path],
         [Operation(planId + "_op", kind, path, before, Content(text), "capture", Low)], Proposed)
  }

  /** Each row has its book, with as many blocks as the row counts and the digest the row
      keeps; no two rows share a note. */
  ghost predicate Kept(rows: map<string, Bucket>, books: map<string, Book>, hash: Hasher) {
    && rows.Keys == books.Keys
    && (forall id :: id in rows ==>
      books[id].Valid() && rows[id].count == |books[id].entries| && rows[id].hash == hash(books[id].File()))
    && (forall a, b :: a in rows && b in rows && a != b ==> rows[a].path != rows[b].path)
  }

  /** An active bucket nobody else touched is the printed form of its book. */
  ghost predicate Printed(rows: map<string, Bucket>, books: map<string, Book>, edited: set<string>, v: Vault) {
    forall id :: id in rows && id in books && rows[id].status == Active && rows[id].path !in edited ==>
      rows[id].path in v && v[rows[id].path] == books[id].File()
  }

  class Service {
    const fs: DirectFS
    const rules: Policy.Rules
    const ttl: int

    var rows: map<string, Bucket>
    ghost var books: map<string, Book>

    /** Notes changed by anyone else, or by a write that was not brought to its end. */
    ghost var edited: set<string>

    constructor (fs: DirectFS, rules: Policy.Rules, ttl: int)
      ensures Valid() && rows == map[] && this.fs == fs
    {
      this.fs, this.rules, this.ttl := fs, rules, ttl;
      rows, books, edited := map[], map[], {};
    }

    ghost predicate Valid()
      reads this, fs
    {
      Kept(rows, books, fs.hash) && Printed(rows, books, edited, fs.notes)
    }

    /** Someone else writes a note. */
    method OutsideEdit(path: string, text: string)
      requires Valid()
      modifies `edited, fs`notes
      ensures Valid() && fs.notes == old(fs.notes)[path := text] && edited == old(edited) + {path}
    {
      fs.notes := fs.notes[path := text];
      edited := edited + {path};
    }

    method OutsideRemove(path: string)
      requires Valid()
      modifies `edited, fs`notes
      ensures Valid() && fs.notes == old(fs.notes) - {path} && edited == old(edited) + {path}
    {
      fs.notes := fs.notes - {path};
      edited := edited + {path};
    }

    /** Check and run a plan of one write. */
    method WriteOne(plan: Plan, now: int) returns (ok: bool)
      requires |plan.ops| == 1 && (plan.ops[0].kind == CreateNote || plan.ops[0].kind == RewriteNote)
      requires plan.ops[0].payload.Content?
      modifies fs, fs.locks
      ensures var op := plan.ops[0];
        && (ok ==>
          OpFailure(old(fs.notes), op, fs.hash) == None && fs.notes == old(fs.notes)[op.target := op.payload.content])
        && (!ok ==> fs.notes == old(fs.notes) || fs.notes == old(fs.notes)[op.target := op.payload.content])
        && ((fs.Unhindered(old(fs.locks.rows), plan, now) && Policy.LowAllowed(plan, rules)
          && OpFailure(old(fs.notes), op, fs.hash) == None) ==> ok)
    {
      hide Before, PlanStages, RunsClean, GuardsHold, OpFailure, Passed, Reports, AllRows, Policy.LowAllowed, RanAs,
        Apart, AllLeft;
      if !Policy.LowAllowed(plan, rules) { return false; }
      ghost var v, op := fs.notes, plan.ops[0];
      assert plan.ops == [op];
      OneOp(v, op, fs.hash);
      var applied, err;
      ghost var started;
      applied, err, started := fs.Apply(plan, now);
      if err.None? {
        assert Before(v, [op], 0) == v;
        assert |applied| == 1;
      }
      return err.None?;
    }

    /** The plan of one write of a bucket's note, guarded when there is one already. */
    method WriteBook(planId: string, jobId: string, kind: OpKind, path: string, before: string, text: string,
                     ghost book: Book, now: int)
        returns (ok: bool)
      requires (kind == CreateNote || kind == RewriteNote) && text == book.File()
      modifies fs, fs.locks
      ensures ok ==> fs.notes == old(fs.notes)[path := text] && (path in old(fs.notes) <==> kind == RewriteNote)
      ensures !ok ==> fs.notes == old(fs.notes) || fs.notes == old(fs.notes)[path := text]
      ensures Ready(old(fs.locks.rows), path, now) && GuardMet(old(fs.notes), kind, path, before) ==> ok
    {
      hide OpFailure, Policy.LowAllowed, ValidVaultPath, Inside, PathLocks.Grants, Unique, Book.File, ValidDigest,
        GuardMet;
      var plan := OneOpPlan(planId, jobId, kind, path, before, text);
      ghost var v, op := fs.notes, plan.ops[0];
      FileShown(book);
      if Ready(fs.locks.rows, path, now) && GuardMet(v, kind, path, before) {
        WriteAllowed(planId, jobId, v, kind, path, before, book);
        WriteRuns(v, op);
      }
      ok := WriteOne(plan, now);
      if ok { WroteWhere(v, op, fs.hash); }
    }

    /** There is no such note yet, or the one the digest was taken of. */
    predicate GuardMet(v: Vault, kind: OpKind, path: string, before: string) {
      if kind == CreateNote then path !in v
      else path in v && fs.hash(v[path]) == before && ValidDigest(before)
    }

    /** A write of a bucket's book that the checks let through. */
    lemma WriteAllowed(planId: string, jobId: string, v: Vault, kind: OpKind, path: string, before: string, book: Book)
      requires ValidVaultPath(path) && Inside(path, rules.inboxDir) && GuardMet(v, kind, path, before)
      requires kind == CreateNote || kind == RewriteNote
      ensures var plan := OneOpPlan(planId, jobId, kind, path, before, book.File());
        Policy.LowAllowed(plan, rules) && plan.targets == [path] && Unique([path]) == [path]
    {
      Policy.DirPrefixMeans(path, rules.inboxDir);
      FileShown(book);
      assert path != "" by { assert "" in Segments(""); }
      OneTarget(path);
      hide Policy.HasDirPrefix, ValidVaultPath, Inside, ValidDigest, Trim, Book.File, Unique;
    }

    /** And one that runs. */
    lemma WriteRuns(v: Vault, op: Operation)
      requires ValidVaultPath(op.target) && op.payload.Content? && op.payload.content != ""
      requires op.kind == CreateNote || op.kind == RewriteNote
      requires GuardMet(v, op.kind, op.target, op.beforeHash)
      ensures OpFailure(v, op, fs.hash) == None
    {
      hide ValidVaultPath, ValidDigest;
    }

    method CreateRawBucket(id: string, sourceKey: string, rawText: string, h: Header, planId: string, path: string,
                           now: int)
        returns (ok: bool)
      requires Valid() && h.Valid() && id !in rows && forall b :: b in rows ==> rows[b].path != path
      modifies this, fs, fs.locks
      ensures Valid()
      ensures edited - {path} == old(edited) - {path}
      ensures !ok ==>
        rows == old(rows) && books == old(books) && OnlyDisturbed(old(edited), edited, old(fs.notes), fs.notes, path)
      ensures ok ==> id in rows && rows == old(rows)[id := rows[id]] && rows[id].status == Active && rows[id].count == 1
      ensures ok ==> books == old(books)[id := FirstBook(h, Trim(rawText))] && path !in edited
      ensures ok ==> path !in old(fs.notes) && fs.notes == old(fs.notes)[path := FirstBook(h, Trim(rawText)).File()]
      ensures ok ==>
        rows[id] == Bucket(Trim(sourceKey), path, Active, 1, fs.hash(FirstBook(h, Trim(rawText)).File()), now + ttl)
      ensures Ready(old(fs.locks.rows), path, now) && path !in old(fs.notes) ==>
        (ok <==> Trim(rawText) != "" && Trim(sourceKey) != "")
    {
      var text := Trim(rawText);
      if text == "" || Trim(sourceKey) == "" { return false; }
      var book := FirstBook(h, text);
      TrimIdempotent(rawText);
      NewBook(h, text);
      hide Kept, Printed, BucketFile, Book.Valid, OpFailure, Trim, Header.Valid, OneLine, FirstBook, Book.File,
        Policy.LowAllowed, ValidVaultPath, Inside, PathLocks.Grants, Unique, ValidDigest, RewriteUpdated, Block,
        Entry.Valid;
      RowsBooks(rows, books, fs.hash);
      ghost var v := fs.notes;
      var file := book.File();
      ok := WriteBook(planId, h.jobId, CreateNote, path, "", file, book, now);
      if !ok {
        Disturbed(rows, books, edited, v, fs.notes, path, fs.hash);
        if fs.notes != v { edited := edited + {path}; }
        return false;
      }
      var row := Bucket(Trim(sourceKey), path, Active, 1, fs.hash(file), now + ttl);
      NewRow(rows, books, edited, v, id, row, book, fs.hash);
      rows := rows[id := row];
      books := books[id := book];
      edited := edited - {path};
    }

    /** Append under the hash guard. */
    method AppendRawBucket(id: string, sourceKey: string, rawText: string, source: string, stamp: string,
                           planId: string, jobId: string, now: int, appliedAt: int)
        returns (ok: bool)
      requires Valid() && OneLine(source) && OneLine(stamp)
      requires id in rows && id in books && rows[id].path in fs.notes ==>
        Injective(fs.hash, fs.notes[rows[id].path], books[id].File())
      modifies this, fs, fs.locks
      ensures Valid() && rows.Keys == old(rows).Keys
      ensures forall b :: b in rows && b != id ==> rows[b] == old(rows)[b]
      ensures forall b :: b in books && b != id ==> b in old(books) && books[b] == old(books)[b]
      ensures id in rows ==>
        Ages(old(rows)[id], Trim(rawText) != "" && Names(old(rows)[id], sourceKey), old(fs.notes), now, rows[id].status)
      ensures id in rows && rows[id].status != Active ==> !ok && fs.notes == old(fs.notes)
      ensures ok ==>
        id in rows && Trim(rawText) != "" && Usable(old(rows)[id], sourceKey, now) && rows[id].path !in edited
      ensures ok ==>
        rows[id] ==
          old(rows)[id].(count := old(rows)[id].count + 1, hash := fs.hash(books[id].File()),
          expires := appliedAt + ttl)
      ensures id in rows && Ready(old(fs.locks.rows), old(rows)[id].path, now) && ValidDigest(old(rows)[id].hash) ==>
        (ok <==> (Trim(rawText) != "" && Usable(old(rows)[id], sourceKey, now)
          && old(rows)[id].path in old(fs.notes) && !Stale(old(rows)[id], old(fs.notes))))
      ensures ok ==>
        id in books && id in old(books) && books[id] == WithEntry(old(books)[id], Entry(Trim(rawText), source, stamp))
      ensures id !in rows ==> edited == old(edited) && fs.notes == old(fs.notes)
      ensures id in rows ==> edited - {rows[id].path} == old(edited) - {rows[id].path}
      ensures ok ==> fs.notes == old(fs.notes)[rows[id].path := books[id].File()]
      ensures !ok ==> books == old(books)
      ensures !ok && id in rows ==> OnlyDisturbed(old(edited), edited, old(fs.notes), fs.notes, rows[id].path)
      ensures !ok && id in rows ==> rows[id] == old(rows)[id].(status := rows[id].status)
    {
      hide Kept, Printed, BucketFile, Book.Valid, OpFailure, Trim, RewriteUpdated, Block, ValidVaultPath, Entry.Valid,
        OneLine, Book.File, Policy.LowAllowed, Inside, PathLocks.Grants, Unique, ValidDigest;
      RowsBooks(rows, books, fs.hash);
      ok := false;
      var text := Trim(rawText);
      if text == "" || Trim(sourceKey) == "" || id !in rows || rows[id].sourceKey != Trim(sourceKey) { return; }
      var row := rows[id];
      if row.status != Active { return; }
      if now > row.expires {
        Shut(id, Expired);
        return;
      }
      if row.path !in fs.notes { return; }
      var current := fs.notes[row.path];
      if fs.hash(current) != row.hash {
        Shut(id, HashMismatch);
        return;
      }
      ghost var book, v := books[id], fs.notes;
      Current(rows, books, id, current, fs.hash);
      var block := RenderBlock(row.count + 1, Entry(text, source, stamp));
      var refreshed := RewriteRawBucketUpdated(current, stamp);
      var next := refreshed + block;
      ghost var more := WithEntry(book, Entry(text, source, stamp));
      TrimIdempotent(rawText);
      Grown(book, Entry(text, source, stamp), stamp);
      var written := WriteBook(planId, jobId, RewriteNote, row.path, row.hash, next, more, now);
      if !written {
        Disturbed(rows, books, edited, v, fs.notes, row.path, fs.hash);
        edited := if fs.notes == v then edited else edited + {row.path};
        return;
      }
      var grown := row.(count := row.count + 1, hash := fs.hash(next), expires := appliedAt + ttl);
      Regrown(rows, books, edited, v, id, grown, more, fs.hash);
      rows := rows[id := grown];
      books := books[id := more];
      edited := edited - {row.path};
      ok := true;
    }

    /** The request names the bucket by the source it belongs to. */
    predicate Names(b: Bucket, sourceKey: string) {
      Trim(sourceKey) != "" && b.sourceKey == Trim(sourceKey)
    }

    /** A bucket that may be appended to or organized, were it not for its note. */
    predicate Usable(b: Bucket, sourceKey: string, now: int) {
      b.status == Active && Names(b, sourceKey) && now <= b.expires
    }

    /** What a request makes of an active bucket's status: it is closed when its time is up
        or its note is another one, and only then. */
    predicate Ages(b: Bucket, asked: bool, v: Vault, now: int, after: Status)
      reads this
    {
      if b.status != Active || !asked then after == b.status
      else if now > b.expires then after == Expired
      else if Stale(b, v) then after == HashMismatch
      else after == Active
    }

    /** Nothing fails, the note's lock is free and it lies in the inbox. */
    ghost predicate Ready(locks: PathLocks.Rows, path: string, now: int)
      reads this
    {
      && fs.Faultless() && fs.LogWorks() && PathLocks.Grants(locks, [path], now)
      && ValidVaultPath(path) && Inside(path, rules.inboxDir)
    }

    /** The note is there, and is not the one the row knows. */
    predicate Stale(b: Bucket, v: Vault)
      reads this
    {
      b.path in v && fs.hash(v[b.path]) != b.hash
    }

    method Shut(id: string, status: Status)
      requires Valid() && id in rows && status != Active
      modifies `rows
      ensures Valid() && rows == old(rows)[id := old(rows)[id].(status := status)]
    {
      StatusOnly(rows, books, edited, fs.notes, id, status, fs.hash);
      hide Kept, Printed;
      rows := rows[id := rows[id].(status := status)];
    }

    method CloseRawBucket(id: string) returns (found: bool)
      requires Valid()
      modifies `rows
      ensures Valid() && (found <==> id in old(rows))
      ensures rows == if id in old(rows) && old(rows)[id].status == Active
                      then old(rows)[id := old(rows)[id].(status := Closed)] else old(rows)
    {
      if id !in rows { return false; }
      if rows[id].status == Active { Shut(id, Closed); }
      return true;
    }

    /** Organize under the hash guard; `planned` tells whether a plan could be made. */
    method OrganizeCaptureBucket(id: string, sourceKey: string, planned: bool, now: int) returns (ok: bool)
      requires Valid()
      modifies `rows
      ensures Valid() && rows.Keys == old(rows).Keys
      ensures forall b :: b in rows && b != id ==> rows[b] == old(rows)[b]
      ensures id in rows ==> rows[id] == old(rows)[id].(status := rows[id].status)
      ensures id in rows && !ok ==> Ages(old(rows)[id], Names(old(rows)[id], sourceKey), fs.notes, now, rows[id].status)
      ensures ok ==> id in rows && rows[id].status == Organized
      ensures ok <==> (id in rows && planned && Usable(old(rows)[id], sourceKey, now)
        && old(rows)[id].path in fs.notes && !Stale(old(rows)[id], fs.notes))
    {
      hide Kept, Printed, Trim;
      ok := false;
      if Trim(sourceKey) == "" || id !in rows || rows[id].sourceKey != Trim(sourceKey) { return; }
      var row := rows[id];
      if row.status != Active { return; }
      if now > row.expires {
        Shut(id, Expired);
        return;
      }
      if row.path !in fs.notes { return; }
      if fs.hash(fs.notes[row.path]) != row.hash {
        Shut(id, HashMismatch);
        return;
      }
      if !planned { return; }
      Shut(id, Organized);
      ok := true;
    }
  }

  // ---- Steps ----

  lemma OneTarget(path: string)
    requires path != ""
    ensures Unique([path]) == [path]
  {
    assert [path][..0] == [] && Unique([]) == [];
  }

  /** A bucket's text starts with its fence. */
  lemma FileShown(book: Book)
    ensures book.File() != "" && Trim(book.File()) != ""
  {
    hide HeadText, Blocks, Trim;
    var lines := FrontLines(book.header, book.updated);
    assert Unlines(lines) == "---" + "\n" + Unlines(lines[1..]);
    assert book.File()[0] == '-';
    TrimShown(book.File());
  }

  lemma TrimShown(s: string)
    requires s != "" && !IsSpace(s[0])
    ensures Trim(s) != ""
  {
    assert TrimLeft(s) == s;
  }

  lemma NewBook(h: Header, text: string)
    requires h.Valid() && text != "" && Solid(text)
    ensures FirstBook(h, text).Valid() && |FirstBook(h, text).entries| == 1
  {
    hide OneLine, Solid;
  }

  lemma WroteWhere(v: Vault, op: Operation, hash: Hasher)
    requires (op.kind == CreateNote || op.kind == RewriteNote) && OpFailure(v, op, hash) == None
    ensures op.target in v <==> op.kind == RewriteNote
  {
    hide ValidVaultPath;
  }

  /** A refused write disturbs its own note at most, and only if it changed it. */
  ghost predicate OnlyDisturbed(before: set<string>, after: set<string>, v: Vault, w: Vault, path: string) {
    && after == (if w == v then before else before + {path})
    && (w == v || (path in w && w == v[path := w[path]]))
  }

  /** A write that failed half-way leaves its note to be seen as edited. */
  lemma Disturbed(rows: map<string, Bucket>, books: map<string, Book>, edited: set<string>, v: Vault, w: Vault,
                  path: string, hash: Hasher)
    requires Kept(rows, books, hash) && Printed(rows, books, edited, v)
    requires w == v || (path in w && w == v[path := w[path]])
    ensures Printed(rows, books, if w == v then edited else edited + {path}, w)
  {
    hide Book.Valid, BucketFile;
  }

  lemma NewRow(rows: map<string, Bucket>, books: map<string, Book>, edited: set<string>, v: Vault, id: string,
               row: Bucket, book: Book, hash: Hasher)
    requires Kept(rows, books, hash) && Printed(rows, books, edited, v) && id !in rows
    requires book.Valid() && row.count == |book.entries| && row.hash == hash(book.File())
    requires forall b :: b in rows ==> rows[b].path != row.path
    ensures Kept(rows[id := row], books[id := book], hash)
    ensures Printed(rows[id := row], books[id := book], edited - {row.path}, v[row.path := book.File()])
  {
    hide Book.Valid, BucketFile;
  }

  lemma Regrown(rows: map<string, Bucket>, books: map<string, Book>, edited: set<string>, v: Vault, id: string,
                row: Bucket, book: Book, hash: Hasher)
    requires Kept(rows, books, hash) && Printed(rows, books, edited, v) && id in rows && row.path == rows[id].path
    requires book.Valid() && row.count == |book.entries| && row.hash == hash(book.File())
    ensures Kept(rows[id := row], books[id := book], hash)
    ensures Printed(rows[id := row], books[id := book], edited - {row.path}, v[row.path := book.File()])
  {
    hide Book.Valid, BucketFile;
  }

  lemma RowsBooks(rows: map<string, Bucket>, books: map<string, Book>, hash: Hasher)
    requires Kept(rows, books, hash)
    ensures rows.Keys == books.Keys
  {}

  lemma StatusOnly(rows: map<string, Bucket>, books: map<string, Book>, edited: set<string>, v: Vault, id: string,
                   status: Status, hash: Hasher)
    requires Kept(rows, books, hash) && Printed(rows, books, edited, v) && id in rows && status != Active
    ensures Kept(rows[id := rows[id].(status := status)], books, hash)
    ensures Printed(rows[id := rows[id].(status := status)], books, edited, v)
  {
    StatusKept(rows, books, id, status, hash);
    hide Kept, Book.File;
  }

  lemma StatusKept(rows: map<string, Bucket>, books: map<string, Book>, id: string, status: Status, hash: Hasher)
    requires Kept(rows, books, hash) && id in rows
    ensures Kept(rows[id := rows[id].(status := status)], books, hash)
  {
    hide Book.Valid, Book.File;
    var after := rows[id := rows[id].(status := status)];
    assert forall b :: b in after ==> after[b] == rows[b].(status := after[b].status);
  }

  /** A note with the digest the row keeps is the printed book. */
  lemma Current(rows: map<string, Bucket>, books: map<string, Book>, id: string, current: string, hash: Hasher)
    requires Kept(rows, books, hash) && id in rows && id in books && hash(current) == rows[id].hash
    requires Injective(hash, current, books[id].File())
    ensures id in books && books[id].Valid() && current == books[id].File() && rows[id].count == |books[id].entries|
  {
    hide Book.Valid, BucketFile;
  }

  /** Refreshing the header and adding the next block prints the grown book. */
  lemma Grown(book: Book, e: Entry, stamp: string)
    requires book.Valid() && OneLine(stamp) && OneLine(e.source) && e.stamp == stamp && e.text != "" && Solid(e.text)
    ensures var more := WithEntry(book, e);
      more.Valid() && RewriteUpdated(book.File(), stamp) + Block(|book.entries| + 1, e) == more.File()
  {
    RewriteRefreshes(book.header, book.updated, book.entries, stamp);
    var es := book.entries + [e];
    assert es[..|es| - 1] == book.entries;
    assert AllValid(es);
    hide Block, RewriteUpdated, FrontLines, HeadText, OneLine, Solid;
    PrintMore(Unlines(FrontLines(book.header, stamp)), HeadText(book.header), Blocks(book.entries), Block(|es|, e));
  }

  lemma PrintMore(a: string, b: string, c: string, d: string)
    ensures a + (b + c) + d == a + (b + (c + d))
  {}

  /** What an active, unedited bucket promises: its note matches the stored digest and,
      read as fenced blocks, gives back every text captured, in order. */
  lemma BucketRefinesTexts(svc: Service, id: string)
    requires svc.Valid() && id in svc.rows && svc.rows[id].status == Active && svc.rows[id].path !in svc.edited
    ensures svc.rows[id].path in svc.fs.notes && id in svc.books
    ensures var file := svc.fs.notes[svc.rows[id].path];
      && svc.fs.hash(file) == svc.rows[id].hash
      && CodeBlocks(file) == Texts(svc.books[id].entries) && svc.rows[id].count == |svc.books[id].entries|
  {
    var book := svc.books[id];
    assert book.Valid();
    TextsRecovered(book.header, book.updated, book.entries);
    hide CodeBlocks, Texts, BucketFile, Book.Valid;
  }
}
