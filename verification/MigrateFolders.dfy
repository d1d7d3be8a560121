/** Moving record files into year folders: the loop of cli/src/commands/records.ts, with the path
    rules of core/src/utils/record-paths.ts. */
module MigrateFolders {
  import opened Optional

  /** A path relative to the data directory, as its segments. */
  type Segment = s: string | s != "" witness "x"
  type Path = seq<Segment>

  datatype Kind = Records | Archive | Unknown

  /** `kind` and `filename` are empty when the path does not tell them. */
  datatype PathInfo = PathInfo(kind: Kind, recordType: string, year: Option<string>, filename: string)

  function ParsePath(p: Path): PathInfo {
    if |p| < 2 then PathInfo(Unknown, "", None, if |p| == 1 then p[0] else "")
    else if p[0] == "records" || p[0] == "archive" then
      var kind := if p[0] == "records" then Records else Archive;
      if |p| >= 4 then PathInfo(kind, p[1], Some(p[2]), p[|p| - 1])
      else PathInfo(kind, p[1], None, if |p| == 3 then p[2] else "")
    else if |p| >= 3 then PathInfo(Unknown, p[0], Some(p[1]), p[2])
    else PathInfo(Unknown, p[0], None, p[1])
  }

  function Prefix(p: Path): Segment {
    if ParsePath(p).kind == Archive then "archive" else "records"
  }

  /** The path without a leading `records/` or `archive/`. */
  function Strip(p: Path): Path {
    if |p| >= 2 && (p[0] == "records" || p[0] == "archive") then p[1..] else p
  }

  /** Where the file of a listed path lies. */
  function Location(p: Path): Path {
    [Prefix(p)] + Strip(p)
  }

  /** What the record parser reads: an id, and a year if the record is dated. */
  datatype Record = Record(id: string, year: Option<Segment>)

  datatype Settings = Settings(includeArchive: bool, dryRun: bool, currentYear: Segment, read: (string, Path) -> Option<Record>)

  datatype Migration = Migration(id: string, from: Path, to: Path, migrated: bool)

  /** The files, and the path column of the records table. */
  datatype Data = Data(files: map<Path, string>, rows: map<string, Path>)

  function Target(o: Settings, p: Path, record: Record): Path
    requires ParsePath(p).recordType != "" && ParsePath(p).filename != ""
  {
    [Prefix(p), ParsePath(p).recordType, record.year.GetOr(o.currentYear), ParsePath(p).filename]
  }

  /** The path asks for a move: it tells type and file name, and no year folder. */
  predicate Flat(o: Settings, p: Path) {
    var info := ParsePath(p);
    info.recordType != "" && info.filename != "" && (o.includeArchive || info.kind != Archive) && info.year.None?
  }

  /** The loop reaches the rename, unless the target exists. */
  predicate Movable(o: Settings, d: Data, p: Path) {
    Flat(o, p) && Location(p) in d.files && o.read(d.files[Location(p)], p).Some?
  }

  function RecordAt(o: Settings, d: Data, p: Path): Record
    requires Movable(o, d, p)
  {
    o.read(d.files[Location(p)], p).value
  }

  function TargetAt(o: Settings, d: Data, p: Path): Path
    requires Movable(o, d, p)
  {
    Target(o, p, RecordAt(o, d, p))
  }

  function Rename(files: map<Path, string>, from: Path, to: Path): map<Path, string>
    requires from in files
  {
    (files - {from})[to := files[from]]
  }

  /** By id, and by the old path when no row has the id. */
  function UpdateRows(rows: map<string, Path>, id: string, from: Path, to: Path): map<string, Path> {
    if id == "unknown" then rows
    else if id in rows then rows[id := to]
    else map i | i in rows :: if rows[i] == from then to else rows[i]
  }

  function Entry(o: Settings, d: Data, p: Path): seq<Migration> {
    if ParsePath(p).recordType == "" || ParsePath(p).filename == "" then [Migration("unknown", p, p, false)]
    else if !Flat(o, p) then []
    else if Location(p) !in d.files then [Migration("unknown", p, p, false)]
    else if !Movable(o, d, p) then [Migration("unknown", p, p, false)]
    else
      var to := TargetAt(o, d, p);
      [Migration(RecordAt(o, d, p).id, p, to, to !in d.files && !o.dryRun)]
  }

  /** The path is moved in this state. */
  predicate Moving(o: Settings, d: Data, p: Path) {
    Movable(o, d, p) && TargetAt(o, d, p) !in d.files && !o.dryRun
  }

  function Moved(o: Settings, d: Data, p: Path): Data {
    if Moving(o, d, p) then
      var to := TargetAt(o, d, p);
      Data(Rename(d.files, Location(p), to), UpdateRows(d.rows, RecordAt(o, d, p).id, p, to))
    else d
  }

  function After(o: Settings, d: Data, paths: seq<Path>): Data {
    if paths == [] then d else Moved(o, After(o, d, paths[..|paths| - 1]), paths[|paths| - 1])
  }

  function Report(o: Settings, d: Data, paths: seq<Path>): seq<Migration> {
    if paths == [] then []
    else
      var before := paths[..|paths| - 1];
      Report(o, d, before) + Entry(o, After(o, d, before), paths[|paths| - 1])
  }

  // ----- the same in terms of segments

  /** The listed path lies in records, or in archive if archives are included, and has a type and
      a file name but no year folder; without either prefix, records is meant. */
  predicate LacksYear(o: Settings, p: Path) {
    || (|p| == 3 && (p[0] == "records" || (p[0] == "archive" && o.includeArchive)))
    || (|p| == 2 && p[0] != "records" && p[0] != "archive")
  }

  predicate Untyped(p: Path) {
    |p| < 2 || (|p| == 2 && (p[0] == "records" || p[0] == "archive"))
  }

  function FileAt(p: Path): Path {
    if |p| == 2 then ["records"] + p else p
  }

  function InYear(o: Settings, p: Path, record: Record): Path
    requires LacksYear(o, p)
  {
    var file, year := FileAt(p), if record.year.Some? then record.year.value else o.currentYear;
    [file[0], file[1], year, file[2]]
  }

  /** The file lies there, and a record can be read from it. */
  predicate HasRecord(o: Settings, d: Data, p: Path) {
    FileAt(p) in d.files && o.read(d.files[FileAt(p)], p).Some?
  }

  function RecordIn(o: Settings, d: Data, p: Path): Record
    requires HasRecord(o, d, p)
  {
    o.read(d.files[FileAt(p)], p).value
  }

  lemma SegmentsTell(o: Settings, d: Data, p: Path)
    ensures Flat(o, p) <==> LacksYear(o, p)
    ensures Movable(o, d, p) <==> LacksYear(o, p) && HasRecord(o, d, p)
    ensures LacksYear(o, p) ==> Location(p) == FileAt(p)
    ensures Movable(o, d, p) ==> RecordAt(o, d, p) == RecordIn(o, d, p) && TargetAt(o, d, p) == InYear(o, p, RecordIn(o, d, p))
  {
    if LacksYear(o, p) {
      if |p| == 3 {
        assert [p[0]] + p[1..] == p;
      } else {
        assert (["records"] + p)[1] == p[0] && (["records"] + p)[2] == p[1];
      }
    }
  }

  /** What the run reports of the next path: nothing if it is settled already or an excluded
      archive; else that it was skipped, if it cannot be typed, found or read; else its target,
      and whether it was moved there. */
  lemma ReportNext(o: Settings, d: Data, before: seq<Path>, p: Path)
    ensures var now := After(o, d, before);
            Report(o, d, before + [p]) == Report(o, d, before) +
              if Untyped(p) then [Migration("unknown", p, p, false)]
              else if !LacksYear(o, p) then []
              else if !HasRecord(o, now, p) then [Migration("unknown", p, p, false)]
              else
                var to := InYear(o, p, RecordIn(o, now, p));
                [Migration(RecordIn(o, now, p).id, p, to, to !in now.files && !o.dryRun)]
  {
    assert (before + [p])[..|before|] == before;
    SegmentsTell(o, After(o, d, before), p);
  }

  lemma StepAt(o: Settings, d: Data, paths: seq<Path>, n: nat)
    requires n < |paths|
    ensures After(o, d, paths[..n + 1]) == Moved(o, After(o, d, paths[..n]), paths[n])
    ensures Report(o, d, paths[..n + 1]) == Report(o, d, paths[..n]) + Entry(o, After(o, d, paths[..n]), paths[n])
  {
    assert paths[..n + 1][..n] == paths[..n];
  }

  // ----- conservation

  ghost function ContentsOver<K, V>(keys: set<K>, m: map<K, V>): multiset<V>
    requires keys <= m.Keys
  {
    if keys == {} then multiset{} else var k :| k in keys; multiset{m[k]} + ContentsOver(keys - {k}, m)
  }

  ghost function Contents<K, V>(m: map<K, V>): multiset<V> {
    ContentsOver(m.Keys, m)
  }

  lemma {:induction false} ContentsOf<K, V>(keys: set<K>, m: map<K, V>, k: K)
    requires k in keys && keys <= m.Keys
    ensures ContentsOver(keys, m) == multiset{m[k]} + ContentsOver(keys - {k}, m)
  {
    var q :| q in keys && ContentsOver(keys, m) == multiset{m[q]} + ContentsOver(keys - {q}, m);
    if q != k {
      ContentsOf(keys - {q}, m, k);
      ContentsOf(keys - {k}, m, q);
      assert keys - {q} - {k} == keys - {k} - {q};
    }
  }

  lemma {:induction false} ContentsSame<K, V>(keys: set<K>, m: map<K, V>, n: map<K, V>)
    requires keys <= m.Keys && keys <= n.Keys && forall k | k in keys :: m[k] == n[k]
    ensures ContentsOver(keys, m) == ContentsOver(keys, n)
  {
    if keys != {} {
      var k :| k in keys;
      ContentsOf(keys, m, k);
      ContentsOf(keys, n, k);
      ContentsSame(keys - {k}, m, n);
    }
  }

  lemma RenameConserves(files: map<Path, string>, from: Path, to: Path)
    requires from in files && to !in files
    ensures Contents(Rename(files, from, to)) == Contents(files)
  {
    var renamed := Rename(files, from, to);
    ContentsOf(files.Keys, files, from);
    ContentsOf(renamed.Keys, renamed, to);
    assert renamed.Keys - {to} == files.Keys - {from};
    ContentsSame(files.Keys - {from}, files, renamed);
  }

  /** Where the migrated files went, by where they lay. */
  function Moves(report: seq<Migration>): map<Path, Path> {
    if report == [] then map[]
    else
      var m := report[|report| - 1];
      var before := Moves(report[..|report| - 1]);
      if m.migrated then before[Location(m.from) := m.to] else before
  }

  /** Nothing was overwritten or lost: a moved file lies at its new, formerly free path, every
      other file where it lay, and there is nothing else. */
  ghost predicate Relocated<K, V>(before: map<K, V>, after: map<K, V>, moves: map<K, K>) {
    && (forall p | p in moves :: MovedTo(before, after, p, moves[p]))
    && (forall p | p in before && p !in moves :: p in after && after[p] == before[p])
    && (forall q | q in after && q !in before :: exists p :: p in moves && moves[p] == q)
    && (forall p, q | p in moves && q in moves && p != q :: moves[p] != moves[q])
  }

  ghost predicate MovedTo<K, V>(before: map<K, V>, after: map<K, V>, p: K, to: K) {
    p in before && p !in after && to !in before && to in after && after[to] == before[p]
  }

  /** Moves lead from flat paths to year folders. */
  predicate IntoYears(moves: map<Path, Path>) {
    forall p | p in moves :: |p| == 3 && |moves[p]| == 4
  }

  lemma LocationOfFlat(o: Settings, p: Path)
    requires Flat(o, p)
    ensures |Location(p)| == 3 && |p| <= 3
  {
  }

  lemma MoveRelocates<K, V>(before: map<K, V>, files: map<K, V>, moves: map<K, K>, from: K, to: K)
    requires Relocated(before, files, moves) && from in files && to !in files
    requires to !in moves && forall p | p in moves :: moves[p] != from
    ensures Relocated(before, (files - {from})[to := files[from]], moves[from := to])
  {
    var after, moves' := (files - {from})[to := files[from]], moves[from := to];
    forall p | p in moves' ensures MovedTo(before, after, p, moves'[p]) {
      assert p in moves ==> MovedTo(before, files, p, moves[p]);
    }
    forall q | q in after && q !in before ensures exists p :: p in moves' && moves'[p] == q {
      if q != to {
        var p :| p in moves && moves[p] == q;
        assert p in moves' && moves'[p] == q;
      } else {
        assert from in moves' && moves'[from] == q;
      }
    }
    forall p, q | p in moves' && q in moves' && p != q ensures moves'[p] != moves'[q] {
      assert p in moves ==> MovedTo(before, files, p, moves[p]);
      assert q in moves ==> MovedTo(before, files, q, moves[q]);
    }
  }

  /** What a run keeps. */
  ghost predicate Kept(before: Data, after: Data, report: seq<Migration>) {
    && Relocated(before.files, after.files, Moves(report)) && IntoYears(Moves(report))
    && Contents(after.files) == Contents(before.files)
    && after.rows.Keys == before.rows.Keys
  }

  lemma MovesNext(o: Settings, d: Data, report: seq<Migration>, p: Path)
    ensures Moves(report + Entry(o, d, p)) ==
            if Moving(o, d, p) then Moves(report)[Location(p) := TargetAt(o, d, p)] else Moves(report)
  {
    var entry := Entry(o, d, p);
    if entry == [] {
      assert report + entry == report;
    } else {
      assert (report + entry)[..|report|] == report;
    }
  }

  lemma KeptNext(o: Settings, before: Data, d: Data, report: seq<Migration>, p: Path)
    requires Kept(before, d, report)
    ensures Kept(before, Moved(o, d, p), report + Entry(o, d, p))
  {
    MovesNext(o, d, report, p);
    if Moving(o, d, p) {
      MoveKeeps(o, before, d, Moves(report), p);
    }
  }

  lemma MoveKeeps(o: Settings, before: Data, d: Data, moves: map<Path, Path>, p: Path)
    requires Moving(o, d, p) && Relocated(before.files, d.files, moves) && IntoYears(moves)
    ensures IntoYears(moves[Location(p) := TargetAt(o, d, p)])
    ensures Relocated(before.files, Moved(o, d, p).files, moves[Location(p) := TargetAt(o, d, p)])
    ensures Contents(Moved(o, d, p).files) == Contents(d.files)
    ensures Moved(o, d, p).rows.Keys == d.rows.Keys
  {
    var from, to := Location(p), TargetAt(o, d, p);
    LocationOfFlat(o, p);
    assert |to| == 4;
    RenameConserves(d.files, from, to);
    MoveRelocates(before.files, d.files, moves, from, to);
  }

  /** A migration conserves files, for every listing and every record parser: the contents are
      the same multiset; a migrated file lies at its target, which no file had before; every
      other file lies where it lay; and there is no file besides. The records table keeps its
      ids. */
  lemma {:induction false} MigrationConserves(o: Settings, d: Data, paths: seq<Path>)
    ensures Kept(d, After(o, d, paths), Report(o, d, paths))
  {
    if paths != [] {
      var before := paths[..|paths| - 1];
      MigrationConserves(o, d, before);
      KeptNext(o, d, After(o, d, before), Report(o, d, before), paths[|paths| - 1]);
    }
  }

  /** What the loop can move in the middle of a run it could move from the start, with the same
      content: no move changes a file that has no year folder yet, except by taking it away. */
  lemma MovableFromTheStart(o: Settings, d: Data, before: seq<Path>, p: Path)
    requires Movable(o, After(o, d, before), p)
    ensures Movable(o, d, p) && RecordAt(o, d, p) == RecordAt(o, After(o, d, before), p)
  {
    MigrationConserves(o, d, before);
    LocationOfFlat(o, p);
    var moves := Moves(Report(o, d, before));
    assert Location(p) in moves ==> MovedTo(d.files, After(o, d, before).files, Location(p), moves[Location(p)]);
  }

  /** Every migrated entry was listed, lacked a year folder, carries the id of the record that lay
      there when the run began, and names its file in the folder of the year of that record, or
      else of the current year. */
  lemma {:induction false} EntriesNameTargets(o: Settings, d: Data, paths: seq<Path>, i: nat)
    requires i < |Report(o, d, paths)| && Report(o, d, paths)[i].migrated
    ensures var m := Report(o, d, paths)[i];
            && m.from in paths && LacksYear(o, m.from) && HasRecord(o, d, m.from) && !o.dryRun
            && m.id == RecordIn(o, d, m.from).id && m.to == InYear(o, m.from, RecordIn(o, d, m.from))
    decreases |paths|
  {
    if paths != [] {
      var before := paths[..|paths| - 1];
      if i < |Report(o, d, before)| {
        EntriesNameTargets(o, d, before, i);
      } else {
        MovableFromTheStart(o, d, before, paths[|paths| - 1]);
        SegmentsTell(o, d, paths[|paths| - 1]);
      }
    }
  }

  /** The file of the listed path was moved, or its target is taken. */
  predicate Settled(o: Settings, before: Data, d: Data, report: seq<Migration>, p: Path)
    requires Movable(o, before, p)
  {
    Location(p) in Moves(report) || TargetAt(o, before, p) in d.files
  }

  lemma YearFoldersStay(o: Settings, d: Data, p: Path, q: Path)
    requires |q| == 4 && q in d.files
    ensures q in Moved(o, d, p).files
  {
    if Moving(o, d, p) {
      LocationOfFlat(o, p);
    }
  }

  lemma SettledStays(o: Settings, before: Data, d: Data, report: seq<Migration>, p: Path, next: Path)
    requires Movable(o, before, p) && Settled(o, before, d, report, p)
    ensures Settled(o, before, Moved(o, d, next), report + Entry(o, d, next), p)
  {
    MovesNext(o, d, report, next);
    if TargetAt(o, before, p) in d.files {
      YearFoldersStay(o, d, next, TargetAt(o, before, p));
    }
  }

  lemma SettledNow(o: Settings, before: Data, d: Data, report: seq<Migration>, p: Path)
    requires !o.dryRun && Movable(o, before, p) && Relocated(before.files, d.files, Moves(report))
    ensures Settled(o, before, Moved(o, d, p), report + Entry(o, d, p), p)
  {
    MovesNext(o, d, report, p);
    if Location(p) !in Moves(report) {
      assert Movable(o, d, p) && TargetAt(o, d, p) == TargetAt(o, before, p);
    }
  }

  lemma {:induction false} ListedFilesSettle(o: Settings, d: Data, paths: seq<Path>, p: Path)
    requires !o.dryRun && p in paths && Movable(o, d, p)
    ensures Settled(o, d, After(o, d, paths), Report(o, d, paths), p)
  {
    var before, last := paths[..|paths| - 1], paths[|paths| - 1];
    if p in before {
      ListedFilesSettle(o, d, before, p);
      SettledStays(o, d, After(o, d, before), Report(o, d, before), p, last);
    } else {
      MigrationConserves(o, d, before);
      SettledNow(o, d, After(o, d, before), Report(o, d, before), p);
    }
  }

  /** Every listed file that lacks a year folder and can be read leaves its place, unless its
      target is taken. */
  lemma ListedFilesMove(o: Settings, d: Data, paths: seq<Path>, p: Path)
    requires !o.dryRun && p in paths && LacksYear(o, p) && HasRecord(o, d, p)
    ensures var after := After(o, d, paths).files;
            FileAt(p) !in after || InYear(o, p, RecordIn(o, d, p)) in after
  {
    SegmentsTell(o, d, p);
    ListedFilesSettle(o, d, paths, p);
    MigrationConserves(o, d, paths);
    var moves := Moves(Report(o, d, paths));
    assert FileAt(p) in moves ==> MovedTo(d.files, After(o, d, paths).files, FileAt(p), moves[FileAt(p)]);
  }

  /** A dry run changes nothing, and reports nothing as migrated. */
  lemma {:induction false} DryRunChangesNothing(o: Settings, d: Data, paths: seq<Path>)
    ensures o.dryRun ==> After(o, d, paths) == d && Moves(Report(o, d, paths)) == map[]
  {
    if paths != [] {
      var before := paths[..|paths| - 1];
      DryRunChangesNothing(o, d, before);
      var entry := Entry(o, After(o, d, before), paths[|paths| - 1]);
      if entry == [] {
        assert Report(o, d, paths) == Report(o, d, before);
      } else {
        assert Report(o, d, paths) == Report(o, d, before) + [entry[0]];
      }
    }
  }

  // ----- the records table

  /** The target of the last migrated entry with the id. */
  function LastTarget(report: seq<Migration>, id: string): Option<Path> {
    if report == [] then None
    else
      var m := report[|report| - 1];
      if m.migrated && m.id == id then Some(m.to) else LastTarget(report[..|report| - 1], id)
  }

  /** The target of the first migrated entry that has an id, but no row of its own, and came from
      the path. */
  function TakenTo(report: seq<Migration>, rows: map<string, Path>, path: Path): Option<Path> {
    if report == [] then None
    else
      var m, earlier := report[|report| - 1], TakenTo(report[..|report| - 1], rows, path);
      if earlier.None? && m.migrated && m.id != "unknown" && m.id !in rows && m.from == path then Some(m.to) else earlier
  }

  /** What the report makes of a row: the last target of its id; else the target of a file that
      lay at its path and has no row of its own; else what it was. The id "unknown" stands for no
      id. */
  function RowNow(report: seq<Migration>, rows: map<string, Path>, id: string): Path
    requires id in rows
  {
    if id != "unknown" && LastTarget(report, id).Some? then LastTarget(report, id).value
    else TakenTo(report, rows, rows[id]).GetOr(rows[id])
  }

  /** The row is what the report makes of it, and a path that it was given is in a year folder. */
  predicate RowFollows(before: map<string, Path>, after: map<string, Path>, report: seq<Migration>, id: string) {
    id in before ==>
      && id in after && after[id] == RowNow(report, before, id)
      && (id != "unknown" && LastTarget(report, id).Some? ==> |LastTarget(report, id).value| == 4)
      && (TakenTo(report, before, before[id]).Some? ==> |TakenTo(report, before, before[id]).value| == 4)
  }

  lemma RowFollowsNext(o: Settings, before: map<string, Path>, d: Data, report: seq<Migration>, p: Path, id: string)
    requires RowFollows(before, d.rows, report, id) && before.Keys == d.rows.Keys
    ensures RowFollows(before, Moved(o, d, p).rows, report + Entry(o, d, p), id)
  {
    var entry := Entry(o, d, p);
    if entry == [] {
      assert report + entry == report;
    } else {
      assert (report + entry)[..|report|] == report;
      if Moving(o, d, p) {
        LocationOfFlat(o, p);
        RowFollowsMove(before, d.rows, report, entry[0], id);
      }
    }
  }

  lemma RowFollowsMove(before: map<string, Path>, rows: map<string, Path>, report: seq<Migration>, m: Migration, id: string)
    requires RowFollows(before, rows, report, id) && before.Keys == rows.Keys
    requires m.migrated && |m.from| <= 3 && |m.to| == 4
    ensures RowFollows(before, UpdateRows(rows, m.id, m.from, m.to), report + [m], id)
  {
    assert (report + [m])[..|report|] == report;
  }

  /** Over every migration, every row is what the report makes of it: the row of a migrated id
      names where its file now lies, and a row that neither an id nor an old path concerns is
      unchanged. */
  lemma {:induction false} RowsFollowFiles(o: Settings, d: Data, paths: seq<Path>, id: string)
    ensures RowFollows(d.rows, After(o, d, paths).rows, Report(o, d, paths), id)
  {
    if paths != [] {
      var before := paths[..|paths| - 1];
      MigrationConserves(o, d, before);
      RowsFollowFiles(o, d, before, id);
      RowFollowsNext(o, d.rows, After(o, d, before), Report(o, d, before), paths[|paths| - 1], id);
    }
  }

  lemma {:induction false} OnlyEntryIsLast(report: seq<Migration>, i: nat)
    requires i < |report| && report[i].migrated
    requires forall j | 0 <= j < |report| && report[j].migrated && report[j].id == report[i].id :: j == i
    ensures LastTarget(report, report[i].id) == Some(report[i].to)
    decreases |report|
  {
    if i < |report| - 1 {
      assert report[..|report| - 1][i] == report[i];
      OnlyEntryIsLast(report[..|report| - 1], i);
    }
  }

  lemma {:induction false} MigratedIsMoved(report: seq<Migration>, i: nat)
    requires i < |report| && report[i].migrated
    ensures Location(report[i].from) in Moves(report)
    decreases |report|
  {
    if i < |report| - 1 {
      assert report[..|report| - 1][i] == report[i];
      MigratedIsMoved(report[..|report| - 1], i);
    }
  }

  /** No file is moved twice. */
  lemma {:induction false} NothingMovesTwice(o: Settings, d: Data, paths: seq<Path>, i: nat, j: nat)
    requires i < j < |Report(o, d, paths)| && Report(o, d, paths)[i].migrated && Report(o, d, paths)[j].migrated
    ensures Location(Report(o, d, paths)[i].from) != Location(Report(o, d, paths)[j].from)
    decreases |paths|
  {
    var before := paths[..|paths| - 1];
    if j < |Report(o, d, before)| {
      NothingMovesTwice(o, d, before, i, j);
    } else {
      MigratedIsMoved(Report(o, d, before), i);
      MigrationConserves(o, d, before);
      var from := Location(Report(o, d, before)[i].from);
      assert MovedTo(d.files, After(o, d, before).files, from, Moves(Report(o, d, before))[from]);
    }
  }

  /** The listed files that can be moved have ids of their own, with rows. */
  ghost predicate IdsMatch(o: Settings, d: Data, paths: seq<Path>) {
    && (forall p | p in paths && LacksYear(o, p) && HasRecord(o, d, p) ::
          RecordIn(o, d, p).id != "unknown" && RecordIn(o, d, p).id in d.rows)
    && (forall p, q | p in paths && q in paths && LacksYear(o, p) && LacksYear(o, q) && HasRecord(o, d, p) && HasRecord(o, d, q) ::
          RecordIn(o, d, p).id == RecordIn(o, d, q).id ==> FileAt(p) == FileAt(q))
  }

  /** When the ids of the rows match those of the listed files, each migrated file's row names the
      path at which its file now lies. */
  lemma MigratedRowsNameFiles(o: Settings, d: Data, paths: seq<Path>, r: seq<Migration>, i: nat)
    requires IdsMatch(o, d, paths) && r == Report(o, d, paths) && i < |r| && r[i].migrated
    ensures r[i].id in After(o, d, paths).rows && After(o, d, paths).rows[r[i].id] == r[i].to
  {
    EntriesNameTargets(o, d, paths, i);
    forall j | 0 <= j < |r| && r[j].migrated && r[j].id == r[i].id ensures j == i {
      EntriesNameTargets(o, d, paths, j);
      SegmentsTell(o, d, r[i].from);
      SegmentsTell(o, d, r[j].from);
      if i < j {
        NothingMovesTwice(o, d, paths, i, j);
      } else if j < i {
        NothingMovesTwice(o, d, paths, j, i);
      }
    }
    OnlyEntryIsLast(r, i);
    RowsFollowFiles(o, d, paths, r[i].id);
  }

  // ----- the command

  class DataDir {
    var files: map<Path, string>
    var rows: map<string, Path>

    constructor (files: map<Path, string>, rows: map<string, Path>)
      ensures Value() == Data(files, rows)
    {
      this.files, this.rows := files, rows;
    }

    function Value(): Data
      reads this
    {
      Data(files, rows)
    }

    method UpdateRecordPath(id: string, from: Path, to: Path)
      modifies this`rows
      ensures rows == UpdateRows(old(rows), id, from, to)
    {
      if id != "unknown" {
        if id in rows {
          rows := rows[id := to];
        } else {
          rows := map i | i in rows :: if rows[i] == from then to else rows[i];
        }
      }
    }

    method MigrateFolders(o: Settings, recordPaths: seq<Path>) returns (migrations: seq<Migration>)
      modifies this
      ensures Value() == After(o, old(Value()), recordPaths)
      ensures migrations == Report(o, old(Value()), recordPaths)
    {
      migrations := [];
      for n := 0 to |recordPaths|
        invariant Value() == After(o, old(Value()), recordPaths[..n])
        invariant migrations == Report(o, old(Value()), recordPaths[..n])
      {
        var relativePath := recordPaths[n];
        StepAt(o, old(Value()), recordPaths, n);
        ghost var d := Value();
        var parsed := ParsePath(relativePath);
        if parsed.recordType == "" || parsed.filename == "" {
          migrations := migrations + [Migration("unknown", relativePath, relativePath, false)];
          continue;
        }
        if !o.includeArchive && parsed.kind == Archive {
          assert Entry(o, d, relativePath) == [] && migrations + [] == migrations;
          continue;
        }
        if parsed.year.Some? {
          assert Entry(o, d, relativePath) == [] && migrations + [] == migrations;
          continue;
        }
        var source := [Prefix(relativePath)] + Strip(relativePath);
        if source !in files {
          migrations := migrations + [Migration("unknown", relativePath, relativePath, false)];
          continue;
        }
        assert source == Location(relativePath) && Flat(o, relativePath);
        var record := o.read(files[source], relativePath);
        if record.None? {
          migrations := migrations + [Migration("unknown", relativePath, relativePath, false)];
          continue;
        }
        var year := if record.value.year.Some? then record.value.year.value else o.currentYear;
        var target := [Prefix(relativePath), parsed.recordType, year, parsed.filename];
        assert target == TargetAt(o, d, relativePath);
        if target in files {
          migrations := migrations + [Migration(record.value.id, relativePath, target, false)];
          continue;
        }
        migrations := migrations + [Migration(record.value.id, relativePath, target, !o.dryRun)];
        if !o.dryRun {
          files := Rename(files, source, target);
          UpdateRecordPath(record.value.id, relativePath, target);
        }
      }
      assert recordPaths[..|recordPaths|] == recordPaths;
    }
  }
}
