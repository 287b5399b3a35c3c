/** `write/audit_lifecycle.py`: hot rows to de-identified archives to deletion.
    The process may die between any two effects; `crashed` reports it. */
module AuditLifecycle {
  import opened Wrappers

  type Id = nat
  type Path = string
  type Instant = int

  const ARCHIVE_MSG_EXCERPT: nat := 80

  /** `rest` stands for the columns copied unread; `student` is the salted hash. */
  datatype Row = Row(student: string, message: Option<string>, createdAt: Instant, archivedAt: Option<Instant>,
      rest: string)
  datatype Line = Line(student: string, excerpt: string, createdAt: Instant, rest: string)
  datatype Meta = Meta(path: Path, rows: nat, archivedAt: Instant, deleted: bool)

  type File = map<Id, Line>

  /** What an archived line keeps of its row: every column but the message, and of
      that the first eighty characters. */
  predicate KeptOf(line: Line, r: Row) {
    var message := match r.message case Some(text) => text case None => "";
    && line.student == r.student && line.createdAt == r.createdAt && line.rest == r.rest
    && line.excerpt <= message
    && (|message| <= 80 ==> line.excerpt == message) && (|message| > 80 ==> |line.excerpt| == 80)
  }

  function Redacted(r: Row): (line: Line)
    ensures KeptOf(line, r)
  {
    var message := r.message.GetOr("");
    var excerpt := if |message| <= ARCHIVE_MSG_EXCERPT then message else message[..ARCHIVE_MSG_EXCERPT];
    Line(r.student, excerpt, r.createdAt, r.rest)
  }

  /** The lines of an archive of `rows`. */
  function Lines(table: map<Id, Row>, rows: seq<Id>): File
    requires forall id :: id in rows ==> id in table
  {
    if rows == [] then map[]
    else
      var last := rows[|rows| - 1];
      Lines(table, rows[..|rows| - 1])[last := Redacted(table[last])]
  }

  lemma {:induction false} LinesHold(table: map<Id, Row>, rows: seq<Id>)
    requires forall id :: id in rows ==> id in table
    ensures forall id :: id in Lines(table, rows) <==> id in rows
    ensures forall id :: id in rows ==> Lines(table, rows)[id] == Redacted(table[id])
  {
    hide Redacted;
    if rows != [] {
      assert rows == rows[..|rows| - 1] + [rows[|rows| - 1]];
      LinesHold(table, rows[..|rows| - 1]);
    }
  }

  lemma LinesKeep(table: map<Id, Row>, rows: seq<Id>)
    requires forall id :: id in rows ==> id in table
    ensures forall id :: id in rows ==> id in Lines(table, rows) && KeptOf(Lines(table, rows)[id], table[id])
  {
    LinesHold(table, rows);
  }

  lemma PartKept(table: map<Id, Row>, rows: seq<Id>, i: nat)
    requires i <= |rows| && forall id :: id in rows ==> id in table
    ensures forall id :: id in Lines(table, rows[..i]) ==> id in rows && KeptOf(Lines(table, rows[..i])[id], table[id])
  {
    hide KeptOf;
    LinesHold(table, rows[..i]);
    LinesKeep(table, rows[..i]);
  }

  lemma NoLines(table: map<Id, Row>, rows: seq<Id>)
    ensures Lines(table, rows[..0]) == map[]
  {
  }

  lemma LinesSnoc(table: map<Id, Row>, rows: seq<Id>, i: nat)
    requires i < |rows| && forall id :: id in rows ==> id in table
    ensures Lines(table, rows[..i + 1]) == Lines(table, rows[..i])[rows[i] := Redacted(table[rows[i]])]
  {
    assert rows[..i + 1][..i] == rows[..i];
  }

  predicate Expired(m: Meta, olderThan: Instant) {
    m.archivedAt < olderThan && !m.deleted
  }

  /** A row is safe in archive `m`: the archive listed it, and its file is there
      as written, or went only after its retention. */
  ghost predicate SafeIn(m: Meta, id: Id, row: Row, files: map<Path, File>, written: map<Path, File>, retention: int,
        reaped: map<Path, Instant>)
  {
    && m.path in written && id in written[m.path] && KeptOf(written[m.path][id], row)
    && (if m.path in reaped then m.archivedAt + retention < reaped[m.path]
        else m.path in files && files[m.path] == written[m.path])
  }

  ghost predicate ArchivedIn(metas: seq<Meta>, id: Id, row: Row, files: map<Path, File>, written: map<Path, File>,
        retention: int, reaped: map<Path, Instant>)
  {
    exists i :: 0 <= i < |metas| && SafeIn(metas[i], id, row, files, written, retention, reaped)
  }

  lemma StillArchived(id: Id, row: Row, metas: seq<Meta>, m: Meta, files: map<Path, File>, before: map<Path, File>,
        written: map<Path, File>, retention: int, reaped: map<Path, Instant>)
    requires ArchivedIn(metas, id, row, files, before, retention, reaped)
    requires forall p :: p in before ==> p in written && written[p] == before[p]
    ensures ArchivedIn(metas + [m], id, row, files, written, retention, reaped)
  {
    hide SafeIn;
    var i :| 0 <= i < |metas| && SafeIn(metas[i], id, row, files, before, retention, reaped);
    StillSafe(metas[i], id, row, files, before, written, retention, reaped);
    assert (metas + [m])[i] == metas[i];
  }

  lemma NewlySafe(m: Meta, id: Id, row: Row, files: map<Path, File>, written: map<Path, File>, retention: int,
        reaped: map<Path, Instant>)
    requires m.path in written && id in written[m.path] && KeptOf(written[m.path][id], row)
    requires m.path !in reaped && m.path in files && files[m.path] == written[m.path]
    ensures SafeIn(m, id, row, files, written, retention, reaped)
  {
  }

  lemma StillSafe(m: Meta, id: Id, row: Row, files: map<Path, File>, before: map<Path, File>,
        written: map<Path, File>, retention: int, reaped: map<Path, Instant>)
    requires SafeIn(m, id, row, files, before, retention, reaped)
    requires forall p :: p in before ==> p in written && written[p] == before[p]
    ensures SafeIn(m, id, row, files, written, retention, reaped)
  {
  }

  /** After the commit a row that left the table is in the new archive, one that
      had left it before is where it was. */
  lemma CommittedIsArchived(table: map<Id, Row>, rows: seq<Id>, m: Meta, metas: seq<Meta>, files: map<Path, File>,
        before: map<Path, File>, written: map<Path, File>, retention: int, reaped: map<Path, Instant>, id: Id, row: Row)
    requires (forall r :: r in rows ==> r in table) && m.path in files && m.path !in reaped && m.path !in before
    requires files[m.path] == Lines(table, rows) && written == before[m.path := files[m.path]]
    requires if id in rows then table[id] == row
      else ArchivedIn(metas, id, row, files, before, retention, reaped)
    ensures ArchivedIn(metas + [m], id, row, files, written, retention, reaped)
  {
    hide SafeIn, Redacted, Lines;
    if id in rows {
      LinesHold(table, rows);
      NewlySafe(m, id, row, files, written, retention, reaped);
      assert (metas + [m])[|metas|] == m;
    } else {
      StillArchived(id, row, metas, m, files, before, written, retention, reaped);
    }
  }

  /** How many paths of `before` are gone. */
  ghost function Missing(before: set<Path>, after: set<Path>): nat {
    |before - after|
  }

  lemma NoneMissing(files: set<Path>)
    ensures Missing(files, files) == 0
  {
    assert files - files == {};
  }

  lemma OneMoreMissing(before: set<Path>, files: set<Path>, path: Path)
    requires path in before && path in files
    ensures Missing(before, files - {path}) == Missing(before, files) + 1
  {
    assert before - (files - {path}) == (before - files) + {path};
  }

  datatype Report = Report(dryRun: bool, hotExpired: nat, archivePath: Option<Path>, archivesDeleted: nat)

  class Lifecycle {
    const retention: int
    var table: map<Id, Row>
    var files: map<Path, File>
    var metas: seq<Meta>

    /** Every row there ever was, the whole content each archive was committed
        with, and when each deleted file was deleted. */
    ghost var ever: map<Id, Row>
    ghost var written: map<Path, File>
    ghost var reaped: map<Path, Instant>

    constructor (retention: int)
      ensures Valid() && this.retention == retention && ever == map[]
    {
      this.retention := retention;
      table, files, metas := map[], map[], [];
      ever, written, reaped := map[], map[], map[];
    }

    ghost predicate Archived(id: Id)
      requires id in ever
      reads this
    {
      ArchivedIn(metas, id, ever[id], files, written, retention, reaped)
    }

    /** No row is lost: it is in the table, or safe in an archive. */
    ghost predicate Valid()
      reads this
    {
      && (forall id :: id in table ==> id in ever && ever[id] == table[id])
      && (forall id :: id in ever ==> id in table || Archived(id))
      && (forall i :: 0 <= i < |metas| ==> metas[i].path in written)
      && (forall i, j :: 0 <= i < j < |metas| ==> metas[i].path != metas[j].path)
      && (forall p :: p in written ==> p in reaped || (p in files && files[p] == written[p]))
      && (forall p :: p in reaped ==> p in written && p !in files)
      && (forall i :: 0 <= i < |metas| && metas[i].deleted ==> metas[i].path in reaped)
    }

    method AddRow(id: Id, row: Row)
      requires Valid() && id !in ever
      modifies this
      ensures Valid() && ever == old(ever)[id := row] && table == old(table)[id := row]
    {
      table := table[id := row];
      ever := ever[id := row];
      forall other | other in ever && other !in table ensures Archived(other) {
        assert old(Archived(other));
        var i :| 0 <= i < |metas|
          && SafeIn(metas[i], other, old(ever)[other], files, written, retention, reaped);
      }
    }

    /** One line per row; a death in the middle leaves a partial file. */
    method WriteArchive(rows: seq<Id>, path: Path) returns (crashed: bool)
      requires Valid() && path !in files && path !in written && forall id :: id in rows ==> id in table
      modifies this`files
      ensures Valid() && path in files && files == old(files)[path := files[path]]
      ensures !crashed ==> files[path] == Lines(table, rows)
      ensures !crashed ==> forall id :: id in files[path] <==> id in rows
      ensures forall id :: id in files[path] ==> id in rows && KeptOf(files[path][id], table[id])
    {
      hide Valid, Archived, Redacted, SafeIn, KeptOf, Lines;
      var content: File := map[];
      NoLines(table, rows);
      files := files[path := content];
      OtherFileAppears(path);
      for i := 0 to |rows|
        invariant content == Lines(table, rows[..i])
        invariant files == old(files)[path := content] && Valid()
      {
        PartKept(table, rows, i);
        crashed := *;
        if crashed {
          return;
        }
        LinesSnoc(table, rows, i);
        content := content[rows[i] := Redacted(table[rows[i]])];
        files := files[path := content];
        OtherFileAppears(path);
      }
      PartKept(table, rows, |rows|);
      LinesHold(table, rows);
      assert rows[..|rows|] == rows;
      crashed := *;
    }

    /** A file no archive knows changes nothing for the rows. */
    twostate lemma OtherFileAppears(path: Path)
      requires old(Valid()) && path !in written && path in files
      requires unchanged(`table, `metas, `ever, `written, `reaped)
      requires files == old(files)[path := files[path]]
      ensures Valid()
    {
      forall id | id in ever && id !in table ensures Archived(id) {
        assert old(Archived(id));
        var i :| 0 <= i < |metas| && SafeIn(metas[i], id, ever[id], old(files), written, retention, reaped);
        assert SafeIn(metas[i], id, ever[id], files, written, retention, reaped);
      }
    }

    /** One transaction: the meta row appears and the hot rows go. */
    method CommitArchive(rows: seq<Id>, path: Path, archivedAt: Instant)
      requires Valid() && path in files && path !in written && forall id :: id in rows ==> id in table
      requires files[path] == Lines(table, rows)
      modifies this`table, this`metas, this`written
      ensures Valid() && table == old(table) - (set id | id in rows)
      ensures metas == old(metas) + [Meta(path, |rows|, archivedAt, false)]
      ensures written == old(written)[path := files[path]]
    {
      hide ArchivedIn, SafeIn, Redacted, Lines, KeptOf;
      ghost var before, metasWas, writtenWas := table, metas, written;
      var m := Meta(path, |rows|, archivedAt, false);
      metas := metas + [m];
      table := table - (set id | id in rows);
      written := written[path := files[path]];
      forall id | id in ever && id !in table ensures Archived(id) {
        CommittedIsArchived(before, rows, m, metasWas, files, writtenWas, written, retention, reaped, id, ever[id]);
      }
    }

    /** Unlink one expired archive. */
    method Unlink(i: nat, now: Instant)
      requires Valid() && i < |metas| && metas[i].path in files && metas[i].archivedAt + retention < now
      modifies this`files, this`reaped
      ensures Valid() && files == old(files) - {metas[i].path} && reaped == old(reaped)[metas[i].path := now]
    {
      var path := metas[i].path;
      files := files - {path};
      reaped := reaped[path := now];
      forall id | id in ever && id !in table ensures Archived(id) {
        assert old(Archived(id));
        var j :| 0 <= j < |metas|
          && SafeIn(metas[j], id, ever[id], old(files), written, retention, old(reaped));
        assert SafeIn(metas[j], id, ever[id], files, written, retention, reaped);
      }
    }

    /** The second transition. A death leaves files gone whose metas are not yet
        marked; the next run marks them. */
    method ReapExpired(now: Instant) returns (deleted: nat, crashed: bool)
      requires Valid()
      modifies this`files, this`reaped, this`metas
      ensures Valid() && |metas| == |old(metas)|
      ensures deleted == Missing(old(files).Keys, files.Keys)
      ensures forall i :: 0 <= i < |metas| ==> metas[i] == old(metas)[i].(deleted := metas[i].deleted)
      ensures forall p :: p in files ==> p in old(files) && files[p] == old(files)[p]
      ensures forall p :: p in old(files) && p !in files ==>
        exists i :: 0 <= i < |metas| && metas[i].path == p && metas[i].archivedAt < now - retention
      ensures forall p :: p in old(files) && p !in files ==> p in reaped
      ensures !crashed ==> forall i ::
        0 <= i < |metas| && metas[i].archivedAt < now - retention ==> metas[i].deleted && metas[i].path !in files
    {
      hide Valid, Archived, Redacted, SafeIn, Missing;
      deleted := 0;
      NoneMissing(files.Keys);
      for i := 0 to |metas|
        invariant Valid() && metas == old(metas)
        invariant deleted == Missing(old(files).Keys, files.Keys)
        invariant forall p :: p in files ==> p in old(files) && files[p] == old(files)[p]
        invariant forall p :: p in old(files) && p !in files ==>
          exists j :: 0 <= j < |metas| && metas[j].path == p && metas[j].archivedAt < now - retention
        invariant forall p :: p in old(files) && p !in files ==> p in reaped
        invariant forall j :: 0 <= j < i && Expired(metas[j], now - retention) ==> metas[j].path !in files
      {
        if Expired(metas[i], now - retention) && metas[i].path in files {
          OneMoreMissing(old(files).Keys, files.Keys, metas[i].path);
          ghost var there := files.Keys;
          Unlink(i, now);
          assert files.Keys == there - {metas[i].path};
          deleted := deleted + 1;
          crashed := *;
          if crashed {
            return;
          }
        }
      }
      crashed := *;
      if crashed {
        return;
      }
      MarkDeleted(now);
    }

    method MarkDeleted(now: Instant)
      requires Valid() && forall j :: 0 <= j < |metas| && Expired(metas[j], now - retention) ==> metas[j].path !in files
      modifies this`metas
      ensures Valid() && |metas| == |old(metas)|
      ensures forall i :: 0 <= i < |metas| ==>
        metas[i] == old(metas)[i].(deleted := old(metas)[i].deleted || old(metas)[i].archivedAt < now - retention)
    {
      var cutoff := now - retention;
      var before := metas;
      metas := seq(|before|, i requires 0 <= i < |before| =>
        before[i].(deleted := before[i].deleted || before[i].archivedAt < cutoff));
      forall id | id in ever && id !in table ensures Archived(id) {
        assert old(Archived(id));
        var j :| 0 <= j < |before| && SafeIn(before[j], id, ever[id], files, written, retention, reaped);
        assert SafeIn(metas[j], id, ever[id], files, written, retention, reaped);
      }
    }

    /** The first transition: the archive is written whole before its rows go. */
    method ArchiveHot(listing: seq<Id>, path: Path, archivedAt: Instant) returns (crashed: bool)
      requires Valid() && path !in files && path !in written && forall id :: id in listing ==> id in table
      modifies this`files, this`table, this`metas, this`written
      ensures Valid() && path in files && files == old(files)[path := files[path]]
      ensures table == old(table) || table == old(table) - (set id | id in listing)
      ensures !crashed ==> table == old(table) - (set id | id in listing)
      ensures |metas| >= |old(metas)| && metas[..|old(metas)|] == old(metas)
      ensures table != old(table) ==> path in written && written[path] == files[path]
      ensures table != old(table) ==>
        forall id :: id in listing ==> id in written[path] && KeptOf(written[path][id], old(table)[id])
    {
      hide Valid, Archived, Redacted, SafeIn, KeptOf, Lines;
      crashed := WriteArchive(listing, path);
      if crashed {
        return;
      }
      LinesKeep(table, listing);
      CommitArchive(listing, path, archivedAt);
      crashed := *;
    }

    /** `run_lifecycle`. `listing` is what the hot SELECT answers, `path` a fresh
        archive name. However it ends, no row is lost, only archives past their
        retention lose their file, and files no meta knows are left alone. */
    method RunLifecycle(now: Instant, hotDays: int, listing: seq<Id>, path: Path, archivedAt: Instant, dryRun: bool)
      returns (report: Report, crashed: bool)
      requires Valid() && path !in files && path !in written
      requires forall id ::
        id in listing <==> id in table && table[id].archivedAt.None? && table[id].createdAt < now - hotDays
      modifies this
      ensures Valid() && ever == old(ever)
      ensures forall id :: id in old(table) && id !in table ==>
        path in written && id in written[path] && (path in reaped || (path in files && files[path] == written[path]))
      ensures forall id :: id in old(table) && id !in table ==>
        var line := written[path][id];
        var row := old(table)[id];
        && line.student == row.student && line.createdAt == row.createdAt && line.rest == row.rest
        && (row.message.None? ==> line.excerpt == "")
        && (row.message.Some? && |row.message.value| <= 80 ==> line.excerpt == row.message.value)
        && (row.message.Some? && |row.message.value| > 80 ==> line.excerpt == row.message.value[..80])
      ensures report.dryRun == dryRun && report.hotExpired == |listing|
      ensures !crashed ==>
        report.archivesDeleted
        == if dryRun then 0 else Missing(old(files).Keys + if listing == [] then {} else {path}, files.Keys)
      ensures !crashed ==> (report.archivePath == if dryRun || listing == [] then None else Some(path))
      ensures dryRun ==> !crashed && table == old(table) && files == old(files) && metas == old(metas)
      ensures forall id :: id in table ==> id in old(table) && table[id] == old(table)[id]
      ensures forall id :: id in old(table) && id !in table ==>
        old(table)[id].archivedAt.None? && old(table)[id].createdAt < now - hotDays
      ensures forall p :: p in old(files) && p !in files ==>
        exists i :: 0 <= i < |metas| && metas[i].path == p && metas[i].archivedAt < now - retention
      ensures !crashed && !dryRun ==> forall id ::
        id in table ==> table[id].archivedAt.Some? || table[id].createdAt >= now - hotDays
      ensures !crashed && !dryRun ==> forall i ::
        0 <= i < |metas| && metas[i].archivedAt < now - retention ==> metas[i].deleted && metas[i].path !in files
    {
      hide Valid, Archived, Redacted, SafeIn, Missing;
      report, crashed := Report(dryRun, |listing|, None, 0), false;
      if dryRun {
        return;
      }
      if listing != [] {
        crashed := ArchiveHot(listing, path, archivedAt);
        if crashed {
          return;
        }
        report := report.(archivePath := Some(path));
      }
      var deleted;
      assert files.Keys == old(files).Keys + if listing == [] then {} else {path};
      deleted, crashed := ReapExpired(now);
      report := report.(archivesDeleted := deleted);
    }
  }
}
