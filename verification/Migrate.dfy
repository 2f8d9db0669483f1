/** The migration runner (internal/store/migrate.go): each pending file in a
    transaction of its own, in version order, resumable after any failure. */
module Migrate {
  import opened Wrappers
  import opened GoStrings
  import opened Numerals
  import Sorting

  /** An entry of the embedded directory. */
  datatype Entry = Entry(name: string, isDir: bool, body: string)

  datatype Migration = Migration(version: int, body: string)

  datatype Error = BadName | DatabaseError

  /** The database: the bodies committed so far, in order, and the rows of
      `schema_migrations`, whose primary key is the version. */
  datatype Db = Db(history: seq<Migration>, versions: seq<int>)

  /** Where a run fails or is killed: while it creates or reads its table, or when
      it has committed `stop` migrations. */
  datatype Fault = Fault(atCreate: bool, atLoad: bool, stop: Option<nat>)

  const NO_FAULT := Fault(false, false, None)

  // ------------------------------------------------------------------ the run

  predicate HasSuffix(s: string, suffix: string) {
    |suffix| <= |s| && s[|s| - |suffix|..] == suffix
  }

  predicate IsMigration(e: Entry) { !e.isDir && HasSuffix(e.name, ".sql") }

  /** `parseVersion`: the number before the first underscore. */
  function ParseVersion(filename: string): Result<int, Error> {
    var i := Index(filename, "_");
    if i <= 0 then Err(BadName)
    else
      var v := ParseInt(filename[..i]);
      if v.None? then Err(BadName) else Ok(v.value)
  }

  /** The migrations of the directory, or the error of the first bad file name. */
  function Parsed(entries: seq<Entry>): Result<seq<Migration>, Error> {
    if entries == [] then Ok([])
    else
      var e, front := entries[|entries| - 1], Parsed(entries[..|entries| - 1]);
      if front.Err? || !IsMigration(e) then front
      else
        var v := ParseVersion(e.name);
        if v.Err? then Err(v.error) else Ok(front.value + [Migration(v.value, e.body)])
  }

  predicate NotAfter(x: Migration, y: Migration) { x.version <= y.version }

  /** The migrations whose versions are not in `applied`. */
  function Pending(ms: seq<Migration>, applied: seq<int>): seq<Migration> {
    if ms == [] then []
    else if ms[0].version in applied then Pending(ms[1..], applied)
    else [ms[0]] + Pending(ms[1..], applied)
  }

  function Commit(db: Db, m: Migration): Db { Db(db.history + [m], db.versions + [m.version]) }

  /** The transactions of the pending migrations, up to the first that fails; one
      whose version is there already violates the primary key. */
  function RunPending(db: Db, todo: seq<Migration>, stop: Option<nat>): (Db, bool)
    decreases |todo|
  {
    if todo == [] then (db, true)
    else if stop == Some(0) || todo[0].version in db.versions then (db, false)
    else RunPending(Commit(db, todo[0]), todo[1..], if stop.Some? then Some(stop.value - 1) else None)
  }

  /** `apply`: the database afterwards, and whether it succeeded. */
  function ApplyTo(db: Db, entries: seq<Entry>, fault: Fault): (Db, bool) {
    if fault.atCreate || fault.atLoad || Parsed(entries).Err? then (db, false)
    else RunPending(db, Sorting.Sort(Pending(Parsed(entries).value, db.versions), NotAfter), fault.stop)
  }

  class Database {
    var history: seq<Migration>
    var versions: seq<int>

    function Contents(): Db
      reads this
    {
      Db(history, versions)
    }

    constructor (db: Db)
      ensures Contents() == db
    {
      history, versions := db.history, db.versions;
    }

    method LoadApplied() returns (applied: map<int, bool>)
      ensures forall v :: v in applied <==> v in versions
      ensures forall v :: v in applied ==> applied[v]
    {
      applied := map[];
      for i := 0 to |versions|
        invariant forall v :: v in applied <==> v in versions[..i]
        invariant forall v :: v in applied ==> applied[v]
      {
        applied := applied[versions[i] := true];
        assert versions[..i + 1] == versions[..i] + [versions[i]];
      }
      assert versions[..|versions|] == versions;
    }

    /** The body, the version row and the commit; anything that fails is rolled back. */
    method RunOne(m: Migration, bodyFails: bool) returns (ok: bool)
      modifies this
      ensures ok <==> !bodyFails && m.version !in old(versions)
      ensures Contents() == if ok then Commit(old(Contents()), m) else old(Contents())
    {
      var saved := Db(history, versions);
      if bodyFails {
        return false;
      }
      history := history + [m];
      if m.version in versions {
        history, versions := saved.history, saved.versions;
        return false;
      }
      versions := versions + [m.version];
      return true;
    }

    /** The loop over the directory; `None` is the error of a bad file name. */
    method Collect(entries: seq<Entry>, applied: map<int, bool>) returns (pending: Option<seq<Migration>>)
      requires forall v :: v in applied <==> v in versions
      ensures pending == if Parsed(entries).Ok? then Some(Pending(Parsed(entries).value, versions)) else None
    {
      var out: seq<Migration> := [];
      assert entries[..0] == [];
      for i := 0 to |entries|
        invariant Parsed(entries[..i]).Ok? && out == Pending(Parsed(entries[..i]).value, versions)
      {
        hide *;
        ParsedStep(entries, i);
        if IsMigration(entries[i]) {
          var v := ParseVersion(entries[i].name);
          if v.Err? {
            ParsedErrs(entries, i + 1);
            return None;
          }
          PendingAppend(Parsed(entries[..i]).value, Migration(v.value, entries[i].body), versions);
          if v.value !in applied {
            out := out + [Migration(v.value, entries[i].body)];
          }
        }
      }
      assert entries[..|entries|] == entries;
      return Some(out);
    }

    method Apply(entries: seq<Entry>, fault: Fault) returns (ok: bool)
      modifies this
      ensures (Contents(), ok) == ApplyTo(old(Contents()), entries, fault)
    {
      if fault.atCreate || fault.atLoad {
        return false;
      }
      var applied := LoadApplied();
      var pending := Collect(entries, applied);
      if pending.None? {
        return false;
      }
      ok := RunAll(Sorting.Sort(pending.value, NotAfter), fault.stop);
    }

    method RunAll(pending: seq<Migration>, stop: Option<nat>) returns (ok: bool)
      modifies this
      ensures (Contents(), ok) == RunPending(old(Contents()), pending, stop)
    {
      var i := 0;
      assert pending[0..] == pending;
      while i < |pending|
        invariant i <= |pending| && (stop.Some? ==> i <= stop.value)
        invariant RunPending(old(Contents()), pending, stop)
               == RunPending(Contents(), pending[i..], if stop.Some? then Some(stop.value - i) else None)
      {
        ok := RunOne(pending[i], stop == Some(i));
        if !ok {
          return false;
        }
        assert pending[i..][1..] == pending[i + 1..];
        i := i + 1;
      }
      ok := true;
    }
  }

  lemma ParsedStep(entries: seq<Entry>, i: nat)
    requires i < |entries| && Parsed(entries[..i]).Ok?
    ensures var e, v, front := entries[i], ParseVersion(entries[i].name), Parsed(entries[..i]).value;
      Parsed(entries[..i + 1])
      == if !IsMigration(e) then Ok(front)
         else if v.Err? then Err(v.error)
         else Ok(front + [Migration(v.value, e.body)])
  {
    hide IsMigration, ParseVersion;
    assert entries[..i + 1][..i] == entries[..i];
  }

  /** A bad name further on cannot make up for a bad name. */
  lemma {:induction false} ParsedErrs(entries: seq<Entry>, n: nat)
    requires n <= |entries| && Parsed(entries[..n]).Err?
    ensures Parsed(entries).Err?
    decreases |entries|
  {
    if n < |entries| {
      assert entries[..|entries| - 1][..n] == entries[..n];
      ParsedErrs(entries[..|entries| - 1], n);
    } else {
      assert entries[..n] == entries;
    }
  }

  lemma {:induction false} PendingAppend(ms: seq<Migration>, m: Migration, applied: seq<int>)
    ensures Pending(ms + [m], applied) ==
              if m.version in applied then Pending(ms, applied) else Pending(ms, applied) + [m]
  {
    if ms == [] {
      assert ms + [m] == [m];
    } else {
      assert (ms + [m])[1..] == ms[1..] + [m];
      PendingAppend(ms[1..], m, applied);
    }
  }

  // ---------------------------------------------------------- crash and resume

  function SortedMigrations(ms: seq<Migration>): seq<Migration> { Sorting.Sort(ms, NotAfter) }

  ghost predicate UniqueVersions(ms: seq<Migration>) {
    forall i, j :: 0 <= i < j < |ms| ==> ms[i].version != ms[j].version
  }

  function CommitAll(db: Db, ms: seq<Migration>): Db
    decreases |ms|
  {
    if ms == [] then db else CommitAll(Commit(db, ms[0]), ms[1..])
  }

  lemma NotAfterOrders()
    ensures Sorting.TotalPreorder(NotAfter)
  {
  }

  lemma {:induction false} InsertPending(m: Migration, ms: seq<Migration>, applied: seq<int>)
    requires Sorting.Sorted(ms, NotAfter)
    ensures Pending(Sorting.Insert(m, ms, NotAfter), applied)
         == if m.version in applied then Pending(ms, applied) else Sorting.Insert(m, Pending(ms, applied), NotAfter)
    decreases |ms|
  {
    var r := Sorting.Insert(m, ms, NotAfter);
    if ms == [] || NotAfter(m, ms[0]) {
      assert r[1..] == ms;
      PendingIsPart(ms, applied);
      assert Pending(ms, applied) != [] ==> NotAfter(m, Pending(ms, applied)[0]);
    } else {
      assert r[1..] == Sorting.Insert(m, ms[1..], NotAfter);
      InsertPending(m, ms[1..], applied);
      assert ms[0].version !in applied ==> Pending(ms, applied)[1..] == Pending(ms[1..], applied);
      if ms[0].version in applied && m.version !in applied {
        assert Pending(r, applied) == Sorting.Insert(m, Pending(ms[1..], applied), NotAfter);
      }
    }
  }

  lemma {:induction false} PendingIsPart(ms: seq<Migration>, applied: seq<int>)
    ensures forall m :: m in Pending(ms, applied) ==> m in ms && m.version !in applied
  {
    if ms != [] {
      PendingIsPart(ms[1..], applied);
    }
  }

  /** Sorting what is pending and picking what is pending from the sorted files
      come to the same. */
  lemma {:induction false} SortPending(ms: seq<Migration>, applied: seq<int>)
    ensures Sorting.Sort(Pending(ms, applied), NotAfter) == Pending(SortedMigrations(ms), applied)
  {
    if ms != [] {
      SortPending(ms[1..], applied);
      NotAfterOrders();
      Sorting.SortSorts(ms[1..], NotAfter);
      InsertPending(ms[0], Sorting.Sort(ms[1..], NotAfter), applied);
      assert ms[0].version !in applied ==> Pending(ms, applied)[1..] == Pending(ms[1..], applied);
    }
  }

  /** Committing the first pending migration leaves the others pending. */
  lemma {:induction false} PendingRest(ms: seq<Migration>, applied: seq<int>)
    requires UniqueVersions(Pending(ms, applied)) && Pending(ms, applied) != []
    ensures Pending(ms, applied + [Pending(ms, applied)[0].version]) == Pending(ms, applied)[1..]
  {
    var p := Pending(ms, applied);
    if ms[0].version in applied {
      PendingRest(ms[1..], applied);
    } else {
      assert p == [ms[0]] + p[1..] && p[1..] == Pending(ms[1..], applied);
      forall m | m in p[1..] ensures m.version != ms[0].version {
        var j :| 0 <= j < |p[1..]| && p[1..][j] == m;
        assert p[0].version != p[j + 1].version;
      }
      PendingSkips(ms[1..], applied, ms[0].version);
    }
  }

  lemma {:induction false} PendingSkips(ms: seq<Migration>, applied: seq<int>, v: int)
    requires forall m :: m in Pending(ms, applied) ==> m.version != v
    ensures Pending(ms, applied + [v]) == Pending(ms, applied)
  {
    if ms != [] {
      assert ms[0].version !in applied ==>
        Pending(ms, applied)[1..] == Pending(ms[1..], applied) && ms[0] in Pending(ms, applied);
      assert forall m :: m in Pending(ms[1..], applied) ==> m in Pending(ms, applied);
      PendingSkips(ms[1..], applied, v);
    }
  }

  /** What the database comes to once everything pending is committed. */
  function Target(db: Db, ms: seq<Migration>): Db { CommitAll(db, Pending(SortedMigrations(ms), db.versions)) }

  /** A run, however far it gets, leaves the target where it was; it gets there
      exactly when it succeeds, and nothing stops it but the fault. */
  lemma {:induction false} RunKeepsTarget(db: Db, sorted: seq<Migration>, stop: Option<nat>)
    requires UniqueVersions(Pending(sorted, db.versions))
    ensures var (after, ok) := RunPending(db, Pending(sorted, db.versions), stop);
      && UniqueVersions(Pending(sorted, after.versions))
      && CommitAll(after, Pending(sorted, after.versions)) == CommitAll(db, Pending(sorted, db.versions))
      && (ok ==> Pending(sorted, after.versions) == [])
      && (stop.None? ==> ok)
    decreases |Pending(sorted, db.versions)|
  {
    var p := Pending(sorted, db.versions);
    PendingIsPart(sorted, db.versions);
    if p != [] && stop != Some(0) {
      assert p[0] in p;
      PendingRest(sorted, db.versions);
      RunKeepsTarget(Commit(db, p[0]), sorted, if stop.Some? then Some(stop.value - 1) else None);
    }
  }

  lemma ApplyKeepsTarget(db: Db, entries: seq<Entry>, fault: Fault)
    requires Parsed(entries).Ok? && UniqueVersions(Pending(SortedMigrations(Parsed(entries).value), db.versions))
    ensures var ms, (after, ok) := Parsed(entries).value, ApplyTo(db, entries, fault);
      && UniqueVersions(Pending(SortedMigrations(ms), after.versions))
      && Target(after, ms) == Target(db, ms)
      && (ok ==> after == Target(db, ms))
      && (fault == NO_FAULT ==> ok)
  {
    var ms := Parsed(entries).value;
    SortPending(ms, db.versions);
    RunKeepsTarget(db, SortedMigrations(ms), fault.stop);
  }

  /** The database after a series of runs. */
  function Restarts(db: Db, entries: seq<Entry>, faults: seq<Fault>): Db {
    if faults == [] then db
    else ApplyTo(Restarts(db, entries, faults[..|faults| - 1]), entries, faults[|faults| - 1]).0
  }

  lemma {:induction false} RestartsKeepTarget(db: Db, entries: seq<Entry>, faults: seq<Fault>)
    requires Parsed(entries).Ok? && UniqueVersions(Pending(SortedMigrations(Parsed(entries).value), db.versions))
    ensures var ms, after := Parsed(entries).value, Restarts(db, entries, faults);
      UniqueVersions(Pending(SortedMigrations(ms), after.versions)) && Target(after, ms) == Target(db, ms)
    decreases |faults|
  {
    hide ApplyTo, Target, Pending, SortedMigrations;
    if faults != [] {
      RestartsKeepTarget(db, entries, faults[..|faults| - 1]);
      ApplyKeepsTarget(Restarts(db, entries, faults[..|faults| - 1]), entries, faults[|faults| - 1]);
    }
  }

  lemma {:induction false} CommitAllIs(db: Db, ms: seq<Migration>)
    ensures CommitAll(db, ms).history == db.history + ms
    decreases |ms|
  {
    if ms != [] {
      CommitAllIs(Commit(db, ms[0]), ms[1..]);
      assert ms == [ms[0]] + ms[1..];
    } else {
      assert db.history + ms == db.history;
    }
  }

  /** `m` is a file of the directory: its name ends in `.sql`, and what stands before
      the first underscore is its version. */
  predicate FileOf(e: Entry, m: Migration) {
    && !e.isDir && |e.name| >= 4 && e.name[|e.name| - 4..] == ".sql"
    && ParseVersion(e.name) == Ok(m.version) && e.body == m.body
  }

  ghost predicate IsFile(entries: seq<Entry>, m: Migration) { exists e :: e in entries && FileOf(e, m) }

  lemma {:induction false} ParsedIs(entries: seq<Entry>, m: Migration)
    requires Parsed(entries).Ok?
    ensures m in Parsed(entries).value <==> IsFile(entries, m)
  {
    hide ParseVersion;
    if entries != [] {
      var front, e := entries[..|entries| - 1], entries[|entries| - 1];
      ParsedIs(front, m);
      assert entries == front + [e];
      if IsFile(front, m) {
        var f :| f in front && FileOf(f, m);
        assert f in entries && FileOf(f, m);
      }
      if FileOf(e, m) {
        assert e in entries && FileOf(e, m);
      }
    }
  }

  lemma {:induction false} PendingIs(ms: seq<Migration>, applied: seq<int>, m: Migration)
    ensures m in Pending(ms, applied) <==> m in ms && m.version !in applied
  {
    if ms != [] {
      PendingIs(ms[1..], applied, m);
      assert ms == [ms[0]] + ms[1..];
    }
  }

  /** The migrations to apply, by their versions: in ascending order, and exactly
      the files whose version is not recorded. */
  lemma TodoIs(db: Db, entries: seq<Entry>)
    requires Parsed(entries).Ok? && UniqueVersions(Pending(SortedMigrations(Parsed(entries).value), db.versions))
    ensures var p := Pending(SortedMigrations(Parsed(entries).value), db.versions);
      && (forall i, j :: 0 <= i < j < |p| ==> p[i].version < p[j].version)
      && (forall m :: m in p <==> IsFile(entries, m) && m.version !in db.versions)
  {
    hide Pending, IsFile;
    var ms := Parsed(entries).value;
    PendingIsSorted(ms, db.versions);
    NotAfterOrders();
    Sorting.SortSorts(ms, NotAfter);
    Sorting.SameElements(ms, SortedMigrations(ms));
    forall m
      ensures m in Pending(SortedMigrations(ms), db.versions) <==> IsFile(entries, m) && m.version !in db.versions
    {
      ParsedIs(entries, m);
      PendingIs(SortedMigrations(ms), db.versions, m);
    }
  }

  /** Migrations are resumable: any number of runs that failed or were killed
      anywhere, followed by one that succeeds, ends in the same database as one
      uninterrupted run.  That run adds to the history exactly the files whose
      version was not recorded, each once, in ascending order of their versions. */
  lemma ResumesWhereItStopped(db: Db, entries: seq<Entry>, faults: seq<Fault>, last: Fault)
    requires Parsed(entries).Ok? && UniqueVersions(Pending(SortedMigrations(Parsed(entries).value), db.versions))
    requires ApplyTo(Restarts(db, entries, faults), entries, last).1
    ensures var p := Pending(SortedMigrations(Parsed(entries).value), db.versions);
      var once := ApplyTo(db, entries, NO_FAULT);
      && ApplyTo(Restarts(db, entries, faults), entries, last).0 == once.0 && once.1
      && once.0.history == db.history + p
      && (forall i, j :: 0 <= i < j < |p| ==> p[i].version < p[j].version)
      && (forall m :: m in p <==> IsFile(entries, m) && m.version !in db.versions)
  {
    hide ApplyTo, Pending, SortedMigrations, IsFile;
    var ms := Parsed(entries).value;
    RestartsKeepTarget(db, entries, faults);
    ApplyKeepsTarget(Restarts(db, entries, faults), entries, last);
    ApplyKeepsTarget(db, entries, NO_FAULT);
    CommitAllIs(db, Pending(SortedMigrations(ms), db.versions));
    TodoIs(db, entries);
  }

  lemma NoneYetInRest(db: Db, todo: seq<Migration>)
    requires todo != [] && UniqueVersions(todo) && forall m :: m in todo ==> m.version !in db.versions
    ensures todo[0].version !in db.versions && UniqueVersions(todo[1..])
    ensures forall m :: m in todo[1..] ==> m.version !in Commit(db, todo[0]).versions
  {
    assert todo[0] in todo;
    forall m | m in todo[1..] ensures m.version !in Commit(db, todo[0]).versions {
      var j :| 0 <= j < |todo[1..]| && todo[1..][j] == m;
      assert todo[j + 1] == m && todo[0].version != todo[j + 1].version;
    }
  }

  lemma FirstOf(h: seq<Migration>, xs: seq<Migration>, n: nat)
    requires xs != [] && n > 0
    ensures h + [xs[0]] + xs[1..] == h + xs
    ensures n < |xs| ==> h + [xs[0]] + xs[1..][..n - 1] == h + xs[..n]
  {
    assert n < |xs| ==> xs[..n] == [xs[0]] + xs[1..][..n - 1];
  }

  lemma {:induction false} RunStops(db: Db, todo: seq<Migration>, n: nat)
    requires UniqueVersions(todo) && forall m :: m in todo ==> m.version !in db.versions
    ensures var (after, ok) := RunPending(db, todo, Some(n));
      && after.history == db.history + (if n < |todo| then todo[..n] else todo)
      && (ok <==> |todo| <= n)
    decreases |todo|
  {
    if todo == [] || n == 0 {
      assert db.history + todo[..0] == db.history;
    } else {
      NoneYetInRest(db, todo);
      hide UniqueVersions;
      RunStops(Commit(db, todo[0]), todo[1..], n - 1);
      FirstOf(db.history, todo, n);
    }
  }

  /** A run that is cut off after `n` commits leaves the first `n` of what an
      uninterrupted run commits, and has failed unless that was all. */
  lemma StopsAfter(db: Db, entries: seq<Entry>, n: nat)
    requires Parsed(entries).Ok? && UniqueVersions(Pending(SortedMigrations(Parsed(entries).value), db.versions))
    ensures var (after, ok), p := ApplyTo(db, entries, Fault(false, false, Some(n))),
                                  Pending(SortedMigrations(Parsed(entries).value), db.versions);
      && ApplyTo(db, entries, NO_FAULT).0.history == db.history + p
      && after.history == db.history + (if n < |p| then p[..n] else p)
      && (ok <==> |p| <= n)
  {
    hide Pending, SortedMigrations, UniqueVersions;
    var ms := Parsed(entries).value;
    var p := Pending(SortedMigrations(ms), db.versions);
    SortPending(ms, db.versions);
    PendingIsPart(SortedMigrations(ms), db.versions);
    RunStops(db, p, n);
    var none: seq<Fault> := [];
    ApplyKeepsTarget(db, entries, NO_FAULT);
    ResumesWhereItStopped(db, entries, none, NO_FAULT);
  }

  lemma PendingIsSorted(ms: seq<Migration>, applied: seq<int>)
    ensures Sorting.Sorted(Pending(SortedMigrations(ms), applied), NotAfter)
  {
    SortPending(ms, applied);
    NotAfterOrders();
    Sorting.SortSorts(Pending(ms, applied), NotAfter);
  }

  /** After a run that succeeded, no further run changes anything. */
  lemma RerunChangesNothing(db: Db, entries: seq<Entry>, first: Fault, again: Fault)
    requires Parsed(entries).Ok? && UniqueVersions(Pending(SortedMigrations(Parsed(entries).value), db.versions))
    requires ApplyTo(db, entries, first).1
    ensures ApplyTo(ApplyTo(db, entries, first).0, entries, again).0 == ApplyTo(db, entries, first).0
  {
    var ms := Parsed(entries).value;
    SortPending(ms, db.versions);
    RunKeepsTarget(db, SortedMigrations(ms), first.stop);
    SortPending(ms, ApplyTo(db, entries, first).0.versions);
  }

  /** A bad file name stops a run before it has changed anything. */
  lemma BadNameChangesNothing(db: Db, entries: seq<Entry>, fault: Fault, i: nat)
    requires i < |entries| && IsMigration(entries[i]) && ParseVersion(entries[i].name).Err?
    ensures ApplyTo(db, entries, fault) == (db, false)
  {
    assert entries[..i + 1][..i] == entries[..i];
    ParsedErrs(entries, i + 1);
  }

  /** A run that cannot create or read its table has changed nothing. */
  lemma NoTableNoChange(db: Db, entries: seq<Entry>, fault: Fault)
    requires fault.atCreate || fault.atLoad
    ensures ApplyTo(db, entries, fault) == (db, false)
  {
  }

  /** A run that nothing interrupts succeeds exactly when no two pending files
      have the same version. */
  lemma SucceedsWhenVersionsDiffer(db: Db, entries: seq<Entry>)
    requires Parsed(entries).Ok?
    ensures ApplyTo(db, entries, NO_FAULT).1
       <==> UniqueVersions(Pending(SortedMigrations(Parsed(entries).value), db.versions))
  {
    var ms := Parsed(entries).value;
    var p := Pending(SortedMigrations(ms), db.versions);
    SortPending(ms, db.versions);
    PendingIsPart(SortedMigrations(ms), db.versions);
    RunsToTheEnd(db, p);
  }

  lemma {:induction false} RunsToTheEnd(db: Db, todo: seq<Migration>)
    requires forall m :: m in todo ==> m.version !in db.versions
    ensures RunPending(db, todo, None).1 <==> UniqueVersions(todo)
    decreases |todo|
  {
    if todo != [] {
      assert todo == [todo[0]] + todo[1..];
      if forall m :: m in todo[1..] ==> m.version != todo[0].version {
        RunsToTheEnd(Commit(db, todo[0]), todo[1..]);
      } else {
        var m :| m in todo[1..] && m.version == todo[0].version;
        StopsAtRepeat(Commit(db, todo[0]), todo[1..], m);
      }
    }
  }

  lemma {:induction false} StopsAtRepeat(db: Db, todo: seq<Migration>, m: Migration)
    requires m in todo && m.version in db.versions
    ensures !RunPending(db, todo, None).1
    decreases |todo|
  {
    if todo[0].version !in db.versions {
      assert todo == [todo[0]] + todo[1..];
      StopsAtRepeat(Commit(db, todo[0]), todo[1..], m);
    }
  }

  // -------------------------------------------------------- repeated versions

  function VersionsOf(ms: seq<Migration>): seq<int> {
    if ms == [] then [] else VersionsOf(ms[..|ms| - 1]) + [ms[|ms| - 1].version]
  }

  /** `after` is `db` with the migrations of `new_` committed on top, none of a
      version that was there and no two of one version. */
  ghost predicate Extends(db: Db, after: Db, new_: seq<Migration>) {
    && after.history == db.history + new_ && after.versions == db.versions + VersionsOf(new_)
    && UniqueVersions(new_) && forall m :: m in new_ ==> m.version !in db.versions
  }

  lemma {:induction false} VersionsOfIs(ms: seq<Migration>)
    ensures |VersionsOf(ms)| == |ms| && forall i :: 0 <= i < |ms| ==> VersionsOf(ms)[i] == ms[i].version
    ensures forall m :: m in ms ==> m.version in VersionsOf(ms)
  {
    if ms != [] {
      VersionsOfIs(ms[..|ms| - 1]);
    }
  }

  lemma ExtendsByNothing(db: Db)
    ensures Extends(db, db, [])
  {
    assert db.history + [] == db.history && db.versions + [] == db.versions;
  }

  lemma ExtendsByOne(db: Db, after: Db, new_: seq<Migration>, m: Migration)
    requires Extends(db, after, new_) && m.version !in after.versions
    ensures Extends(db, Commit(after, m), new_ + [m])
  {
    VersionsOfIs(new_);
    assert (new_ + [m])[..|new_|] == new_;
    assert VersionsOf(new_ + [m]) == VersionsOf(new_) + [m.version];
    assert forall x :: x in new_ ==> x.version in after.versions;
    assert db.history + (new_ + [m]) == db.history + new_ + [m];
    assert db.versions + (VersionsOf(new_) + [m.version]) == db.versions + VersionsOf(new_) + [m.version];
  }

  lemma {:induction false} RunExtends(db: Db, mid: Db, new_: seq<Migration>, todo: seq<Migration>, stop: Option<nat>)
    returns (all: seq<Migration>)
    requires Extends(db, mid, new_)
    ensures Extends(db, RunPending(mid, todo, stop).0, all)
    decreases |todo|
  {
    hide Extends;
    all := new_;
    if todo != [] && stop != Some(0) && todo[0].version !in mid.versions {
      ExtendsByOne(db, mid, new_, todo[0]);
      var stop' := if stop.Some? then Some(stop.value - 1) else None;
      all := RunExtends(db, Commit(mid, todo[0]), new_ + [todo[0]], todo[1..], stop');
    }
  }

  lemma {:induction false} RestartsExtend(db: Db, entries: seq<Entry>, faults: seq<Fault>)
    returns (new_: seq<Migration>)
    ensures Extends(db, Restarts(db, entries, faults), new_)
    decreases |faults|
  {
    hide Extends, Pending;
    if faults == [] {
      new_ := [];
      ExtendsByNothing(db);
    } else {
      var fault, mid := faults[|faults| - 1], Restarts(db, entries, faults[..|faults| - 1]);
      new_ := RestartsExtend(db, entries, faults[..|faults| - 1]);
      if Parsed(entries).Ok? {
        new_ := RunStays(db, mid, new_, entries, fault);
      }
    }
  }

  lemma RunStays(db: Db, mid: Db, new_: seq<Migration>, entries: seq<Entry>, fault: Fault) returns (all: seq<Migration>)
    requires Extends(db, mid, new_) && Parsed(entries).Ok?
    ensures Extends(db, ApplyTo(mid, entries, fault).0, all)
  {
    hide Extends, Pending;
    all := new_;
    if !fault.atCreate && !fault.atLoad {
      var todo := Sorting.Sort(Pending(Parsed(entries).value, mid.versions), NotAfter);
      all := RunExtends(db, mid, new_, todo, fault.stop);
    }
  }

  /** Whatever the directory holds and however often runs are made and fail, what
      they add to the history is one migration at most for each version, and none
      for a version that was recorded before. */
  lemma NoVersionTwice(db: Db, entries: seq<Entry>, faults: seq<Fault>)
    ensures exists new_ :: Extends(db, Restarts(db, entries, faults), new_)
  {
    var new_ := RestartsExtend(db, entries, faults);
  }

  lemma UniqueWithin(ps: seq<Migration>, new_: seq<Migration>)
    requires UniqueVersions(new_) && multiset(ps) <= multiset(new_)
    ensures UniqueVersions(ps)
  {
    assert Sorting.Distinct(new_);
    forall i, j | 0 <= i < j < |ps| ensures ps[i].version != ps[j].version {
      assert ps[i] in multiset(ps) && ps[j] in multiset(ps);
      assert ps[i] in new_ && ps[j] in new_;
      if ps[i] == ps[j] {
        Sorting.DistinctCount(new_, ps[i]);
        Sorting.RepeatCount(ps, i, j);
        assert false;
      }
    }
  }

  /** Runs that commit every pending migration exist exactly when no two of them
      have the same version. */
  lemma AllCommittedExactly(db: Db, entries: seq<Entry>)
    requires Parsed(entries).Ok?
    ensures var p := Pending(SortedMigrations(Parsed(entries).value), db.versions);
      (exists faults, new_ :: Extends(db, Restarts(db, entries, faults), new_) && multiset(p) <= multiset(new_))
      <==> UniqueVersions(p)
  {
    hide Pending, SortedMigrations, ApplyTo, Extends;
    var p := Pending(SortedMigrations(Parsed(entries).value), db.versions);
    if UniqueVersions(p) {
      OneRunCommitsAll(db, entries);
    }
    forall faults, new_ | Extends(db, Restarts(db, entries, faults), new_) && multiset(p) <= multiset(new_)
      ensures UniqueVersions(p)
    {
      ExtendsUniquely(db, Restarts(db, entries, faults), new_);
      UniqueWithin(p, new_);
    }
  }

  lemma ExtendsUniquely(db: Db, after: Db, new_: seq<Migration>)
    requires Extends(db, after, new_)
    ensures UniqueVersions(new_) && after.history == db.history + new_
  {
  }

  lemma OneRunCommitsAll(db: Db, entries: seq<Entry>)
    requires Parsed(entries).Ok? && UniqueVersions(Pending(SortedMigrations(Parsed(entries).value), db.versions))
    ensures exists faults, new_ :: Extends(db, Restarts(db, entries, faults), new_)
              && multiset(Pending(SortedMigrations(Parsed(entries).value), db.versions)) <= multiset(new_)
  {
    hide Pending, SortedMigrations, ApplyTo, Extends;
    var p := Pending(SortedMigrations(Parsed(entries).value), db.versions);
    var none: seq<Fault> := [];
    assert [NO_FAULT][..0] == none;
    assert Restarts(db, entries, [NO_FAULT]) == ApplyTo(db, entries, NO_FAULT).0;
    ApplyKeepsTarget(db, entries, NO_FAULT);
    ResumesWhereItStopped(db, entries, none, NO_FAULT);
    var new_ := RestartsExtend(db, entries, [NO_FAULT]);
    ExtendsUniquely(db, Restarts(db, entries, [NO_FAULT]), new_);
    SameAddition(db.history, new_, p);
    hide Restarts;
    assert Extends(db, Restarts(db, entries, [NO_FAULT]), new_) && multiset(p) <= multiset(new_);
  }

  lemma SameAddition(h: seq<Migration>, x: seq<Migration>, y: seq<Migration>)
    ensures h + x == h + y ==> x == y
  {
    assert (h + x)[|h|..] == x && (h + y)[|h|..] == y;
  }

  /** Two files of a directory with one version, in any database that does not have
      it: the first run commits the first and fails at the second, and the next
      run succeeds and changes nothing, so the second is never applied. */
  lemma RepeatedVersionIsLost(db: Db, version: nat, width: nat, x: string, y: string, a: string, b: string)
    requires InInt64(version) && version !in db.versions && HasSuffix(x, ".sql") && HasSuffix(y, ".sql")
    ensures var entries := [Entry(Padded(version, width) + "_" + x, false, a),
                            Entry(Padded(version, width) + "_" + y, false, b)];
      var after := Commit(db, Migration(version, a));
      && ApplyTo(db, entries, NO_FAULT) == (after, false)
      && ApplyTo(after, entries, NO_FAULT) == (after, true)
  {
    hide HasSuffix, ParseVersion, Padded;
    var e, f := Entry(Padded(version, width) + "_" + x, false, a), Entry(Padded(version, width) + "_" + y, false, b);
    var first, second := Migration(version, a), Migration(version, b);
    SuffixBehind(Padded(version, width) + "_", x);
    SuffixBehind(Padded(version, width) + "_", y);
    VersionOfName(version, width, x);
    VersionOfName(version, width, y);
    ParsedSnoc([], e, version);
    ParsedSnoc([e], f, version);
    assert [] + [e] == [e] && [e] + [f] == [e, f];
    TwoOfOneVersion(db, first, second);
  }

  lemma ParsedSnoc(es: seq<Entry>, e: Entry, v: int)
    requires Parsed(es).Ok? && IsMigration(e) && ParseVersion(e.name) == Ok(v)
    ensures Parsed(es + [e]) == Ok(Parsed(es).value + [Migration(v, e.body)])
  {
    hide IsMigration, ParseVersion;
    assert (es + [e])[..|es|] == es;
  }

  lemma SuffixBehind(front: string, x: string)
    requires HasSuffix(x, ".sql")
    ensures HasSuffix(front + x, ".sql")
  {
    assert (front + x)[|front + x| - 4..] == x[|x| - 4..];
  }

  lemma TwoOfOneVersion(db: Db, first: Migration, second: Migration)
    requires first.version == second.version && first.version !in db.versions
    ensures var two, after := [first, second], Commit(db, first);
      && Sorting.Sort(Pending(two, db.versions), NotAfter) == two
      && RunPending(db, two, None) == (after, false)
      && Pending(two, after.versions) == []
  {
    var two := [first, second];
    assert two[1..] == [second] && [second][1..] == [];
    assert Pending([second], db.versions) == [second];
    assert Pending(two, db.versions) == two;
    assert Sorting.Sort([second], NotAfter) == [second];
    assert Pending([second], Commit(db, first).versions) == [];
    assert RunPending(Commit(db, first), [second], None) == (Commit(db, first), false);
  }

  // ---------------------------------------------------------------- file names

  /** The version of any name: the integer before the first underscore; without an
      underscore, or without an integer before it, the name is bad. */
  lemma VersionExactly(front: string, rest: string)
    requires '_' !in front
    ensures ParseVersion(front) == Err(BadName)
    ensures ParseVersion(front + "_" + rest)
         == (match ParseInt(front) case Some(n) => Ok(n) case None => Err(BadName))
  {
    var name := front + "_" + rest;
    IndexOfRune(front, '_', rest);
    assert name == front + ['_'] + rest && name[..|front|] == front;
    forall j: nat ensures !OccursAt(front, "_", j) {
      assert j + 1 <= |front| ==> front[j..j + 1][0] == front[j];
    }
    assert front == "" ==> ParseInt(front) == None;
  }

  /** A file named by a version, an underscore and anything has that version. */
  lemma VersionOfName(version: nat, width: nat, rest: string)
    requires InInt64(version)
    ensures ParseVersion(Padded(version, width) + "_" + rest) == Ok(version)
  {
    var v := Padded(version, width);
    assert forall i :: 0 <= i < |v| ==> IsDigit(v[i]);
    IndexOfRune(v, '_', rest);
    assert (v + "_" + rest)[..|v|] == v;
    assert IsDigit(v[0]);
  }
}
