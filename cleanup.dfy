/**
 * The retention cleanup job: which files in the target directories are
 * kept, which are deleted, and the two counters it reports. The file system
 * is given as the listing of each target directory (None when the directory
 * does not exist); each entry records whether it is a regular file, its
 * modification time, and whether unlinking it would succeed. The clock is
 * the parameter `now`; today's `YYYYMMDD` string is the parameter `today`.
 */
module Cleanup {
  import opened Wrappers
  import opened Text

  /** `retention_days` when the configuration does not set it. */
  const DefaultRetentionDays: int := 7
  const SecondsPerDay: int := 24 * 60 * 60

  /** The keywords that mark a report or metadata file. */
  const PreserveKeywords: seq<string> := ["summary", "report", "metadata"]

  /** `RETENTION_DAYS`: the configured value, or the default. */
  function RetentionDays(configured: Option<int>): (days: int)
    ensures configured.None? ==> days == DefaultRetentionDays
    ensures configured.Some? ==> days == configured.value
  {
    if configured.Some? then configured.value else DefaultRetentionDays
  }

  /** `RETENTION_SECONDS`. */
  function RetentionSeconds(days: int): (secs: int)
    ensures secs == days * 86400
  {
    days * SecondsPerDay
  }

  lemma DefaultRetention()
    ensures RetentionSeconds(RetentionDays(None)) == 604800
  {
  }

  /** With nothing configured, an unpreserved file is unlinked once it is
      more than a week old, and one exactly a week old is kept. */
  lemma DefaultRetentionDecision(e: Entry, today: string, now: real)
    requires e.isFile && !ShouldPreserve(e.name, today) && e.unlinkSucceeds
    ensures now - e.mtime > 604800.0 ==> Decide(e, today, now, RetentionSeconds(RetentionDays(None))) == Deleted
    ensures now - e.mtime <= 604800.0 ==> Decide(e, today, now, RetentionSeconds(RetentionDays(None))) == Young
  {
    DefaultRetention();
  }

  /** With `retention_days` configured, an unpreserved file is unlinked
      exactly when it is older than that many days. */
  lemma ConfiguredRetentionDecision(e: Entry, today: string, now: real, days: int)
    requires e.isFile && !ShouldPreserve(e.name, today) && e.unlinkSucceeds
    ensures Decide(e, today, now, RetentionSeconds(RetentionDays(Some(days)))) == Deleted
      <==> now - e.mtime > days as real * 86400.0
    ensures Decide(e, today, now, RetentionSeconds(RetentionDays(Some(days)))) == Young
      <==> now - e.mtime <= days as real * 86400.0
  {
  }

  /** The `for keyword in PRESERVE_KEYWORDS` loop with its early return. */
  function AnyKeywordIn(s: string, keywords: seq<string>): (b: bool)
    ensures b <==> exists k :: 0 <= k < |keywords| && Contains(s, keywords[k])
  {
    if keywords == [] then false
    else if Contains(s, keywords[0]) then true
    else
      var b := AnyKeywordIn(s, keywords[1..]);
      assert forall k :: 1 <= k < |keywords| ==> keywords[k] == keywords[1..][k - 1];
      b
  }

  /** `should_preserve`: today's date anywhere in the name as written, or a
      keyword anywhere in the lower-cased name. */
  predicate ShouldPreserve(filename: string, today: string) {
    Contains(filename, today) || AnyKeywordIn(Lower(filename), PreserveKeywords)
  }

  /** The three ways `should_preserve` can answer, as one statement. */
  lemma ShouldPreserveIff(filename: string, today: string)
    ensures ShouldPreserve(filename, today) <==>
      (exists i: nat :: OccursAt(filename, today, i))
      || (exists i: nat :: OccursAt(Lower(filename), "summary", i))
      || (exists i: nat :: OccursAt(Lower(filename), "report", i))
      || (exists i: nat :: OccursAt(Lower(filename), "metadata", i))
  {
    ContainsIff(filename, today);
    ContainsIff(Lower(filename), "summary");
    ContainsIff(Lower(filename), "report");
    ContainsIff(Lower(filename), "metadata");
    assert PreserveKeywords[0] == "summary" && PreserveKeywords[1] == "report" && PreserveKeywords[2] == "metadata";
  }

  /** The keyword test ignores case, so an upper-case report name is kept. */
  lemma UpperCaseReportPreserved(today: string)
    ensures ShouldPreserve("QUALITY_REPORT.json", today)
  {
    var low := Lower("QUALITY_REPORT.json");
    assert low == "quality_report.json";
    assert low[8..14] == "report";
    assert OccursAt(low, "report", 8);
    ShouldPreserveIff("QUALITY_REPORT.json", today);
  }

  /** The date test does not ignore anything: it needs the exact digits. */
  lemma TodayInNamePreserved(prefix: string, today: string, suffix: string)
    ensures ShouldPreserve(prefix + today + suffix, today)
  {
    var name := prefix + today + suffix;
    assert name[|prefix|..|prefix| + |today|] == today;
    assert OccursAt(name, today, |prefix|);
    ShouldPreserveIff(name, today);
  }

  // -----------------------------------------------------------------------
  // The per-file decision

  datatype Entry = Entry(name: string, isFile: bool, mtime: real, unlinkSucceeds: bool)

  datatype Decision =
    | NotAFile       // directories and other non-files are passed over
    | Preserved      // counted as skipped
    | Young          // not older than the retention period: counted as skipped
    | Deleted        // unlinked and counted as deleted
    | UnlinkFailed   // the unlink raised: logged, counted nowhere

  /** What `cleanup` does with one directory entry. */
  function Decide(e: Entry, today: string, now: real, retentionSeconds: int): (d: Decision)
    ensures d == NotAFile <==> !e.isFile
    ensures d == Preserved <==> e.isFile && ShouldPreserve(e.name, today)
    ensures (d == Deleted || d == UnlinkFailed) <==>
      e.isFile && !ShouldPreserve(e.name, today) && now - e.mtime > retentionSeconds as real
    ensures d == Deleted ==> e.unlinkSucceeds
    ensures d == UnlinkFailed ==> !e.unlinkSucceeds
  {
    if !e.isFile then NotAFile
    else if ShouldPreserve(e.name, today) then Preserved
    else if now - e.mtime > retentionSeconds as real then
      (if e.unlinkSucceeds then Deleted else UnlinkFailed)
    else Young
  }

  /** A file whose age is exactly the retention period is kept. */
  lemma AgeAtRetentionKept(e: Entry, today: string, now: real, retentionSeconds: int)
    requires e.isFile && now - e.mtime == retentionSeconds as real
    ensures Decide(e, today, now, retentionSeconds) in {Preserved, Young}
  {
  }

  // -----------------------------------------------------------------------
  // The counters over all target directories

  datatype Tally = Tally(deleted: nat, skipped: nat, removed: seq<Entry>)

  function Step(t: Tally, e: Entry, today: string, now: real, retentionSeconds: int): Tally {
    match Decide(e, today, now, retentionSeconds)
    case NotAFile => t
    case Preserved => t.(skipped := t.skipped + 1)
    case Young => t.(skipped := t.skipped + 1)
    case Deleted => t.(deleted := t.deleted + 1, removed := t.removed + [e])
    case UnlinkFailed => t
  }

  /** The counters after the entries of one directory, in listing order. */
  function DirTally(t: Tally, entries: seq<Entry>, today: string, now: real, retentionSeconds: int): Tally
    decreases |entries|
  {
    if entries == [] then t
    else Step(DirTally(t, entries[..|entries| - 1], today, now, retentionSeconds),
              entries[|entries| - 1], today, now, retentionSeconds)
  }

  /** The counters after all target directories; a missing one adds nothing. */
  function AllTally(dirs: seq<Option<seq<Entry>>>, today: string, now: real, retentionSeconds: int): Tally
    decreases |dirs|
  {
    if dirs == [] then Tally(0, 0, [])
    else
      var t := AllTally(dirs[..|dirs| - 1], today, now, retentionSeconds);
      match dirs[|dirs| - 1]
      case None => t
      case Some(entries) => DirTally(t, entries, today, now, retentionSeconds)
  }

  /** `cleanup`: walk the directories and their entries, unlinking old files,
      under the retention period of the configuration. */
  method RunCleanup(dirs: seq<Option<seq<Entry>>>, today: string, now: real, configured: Option<int>)
    returns (deletedFiles: nat, skippedFiles: nat, removed: seq<Entry>)
    ensures Tally(deletedFiles, skippedFiles, removed)
      == AllTally(dirs, today, now, RetentionSeconds(RetentionDays(configured)))
  {
    var retentionSeconds := RetentionSeconds(RetentionDays(configured));
    deletedFiles, skippedFiles, removed := 0, 0, [];
    var j := 0;
    while j < |dirs|
      invariant 0 <= j <= |dirs|
      invariant Tally(deletedFiles, skippedFiles, removed) == AllTally(dirs[..j], today, now, retentionSeconds)
    {
      assert dirs[..j + 1][..j] == dirs[..j];
      if dirs[j].None? {
        j := j + 1;
        continue;
      }
      var entries := dirs[j].value;
      ghost var start := Tally(deletedFiles, skippedFiles, removed);
      var i := 0;
      while i < |entries|
        invariant 0 <= i <= |entries|
        invariant Tally(deletedFiles, skippedFiles, removed) == DirTally(start, entries[..i], today, now, retentionSeconds)
      {
        assert entries[..i + 1][..i] == entries[..i];
        var e := entries[i];
        if !e.isFile {
          i := i + 1;
          continue;
        }
        if ShouldPreserve(e.name, today) {
          skippedFiles := skippedFiles + 1;
          i := i + 1;
          continue;
        }
        if now - e.mtime > retentionSeconds as real {
          if e.unlinkSucceeds {
            removed := removed + [e];
            deletedFiles := deletedFiles + 1;
          }
        } else {
          skippedFiles := skippedFiles + 1;
        }
        i := i + 1;
      }
      assert entries[..i] == entries;
      j := j + 1;
    }
    assert dirs[..j] == dirs;
  }

  // -----------------------------------------------------------------------
  // Properties of the counters

  function FileCount(entries: seq<Entry>): nat {
    if entries == [] then 0
    else FileCount(entries[..|entries| - 1]) + (if entries[|entries| - 1].isFile then 1 else 0)
  }

  function FailedCount(entries: seq<Entry>, today: string, now: real, retentionSeconds: int): nat {
    if entries == [] then 0
    else
      var failed := Decide(entries[|entries| - 1], today, now, retentionSeconds) == UnlinkFailed;
      FailedCount(entries[..|entries| - 1], today, now, retentionSeconds) + (if failed then 1 else 0)
  }

  /** Every file of a directory adds one to exactly one counter, except a
      failed unlink, which adds to neither; the deleted count grows with the
      removed files, and every newly removed entry was decided Deleted. */
  lemma {:induction false} DirTallyAccounts(t: Tally, entries: seq<Entry>, today: string, now: real, retentionSeconds: int)
    ensures var r := DirTally(t, entries, today, now, retentionSeconds);
      && r.deleted + r.skipped + FailedCount(entries, today, now, retentionSeconds)
         == t.deleted + t.skipped + FileCount(entries)
      && r.deleted >= t.deleted && |r.removed| >= |t.removed|
      && r.deleted - t.deleted == |r.removed| - |t.removed|
      && r.removed[..|t.removed|] == t.removed
      && (forall k :: |t.removed| <= k < |r.removed| ==>
            Decide(r.removed[k], today, now, retentionSeconds) == Deleted)
    decreases |entries|
  {
    if entries != [] {
      DirTallyAccounts(t, entries[..|entries| - 1], today, now, retentionSeconds);
    }
  }

  /** The entries of one directory that `cleanup` unlinks, in listing order. */
  function Deletions(entries: seq<Entry>, today: string, now: real, retentionSeconds: int): seq<Entry>
    decreases |entries|
  {
    if entries == [] then []
    else
      var last := entries[|entries| - 1];
      Deletions(entries[..|entries| - 1], today, now, retentionSeconds)
        + (if Decide(last, today, now, retentionSeconds) == Deleted then [last] else [])
  }

  /** The deletions of all target directories, one directory after another. */
  function AllDeletions(dirs: seq<Option<seq<Entry>>>, today: string, now: real, retentionSeconds: int): seq<Entry>
    decreases |dirs|
  {
    if dirs == [] then []
    else
      var before := AllDeletions(dirs[..|dirs| - 1], today, now, retentionSeconds);
      match dirs[|dirs| - 1]
      case None => before
      case Some(entries) => before + Deletions(entries, today, now, retentionSeconds)
  }

  /** Deletions are a filter on the listing: they distribute over a split of it. */
  lemma {:induction false} DeletionsAppend(a: seq<Entry>, b: seq<Entry>, today: string, now: real, retentionSeconds: int)
    ensures Deletions(a + b, today, now, retentionSeconds)
      == Deletions(a, today, now, retentionSeconds) + Deletions(b, today, now, retentionSeconds)
    decreases |b|
  {
    if b == [] {
      assert a + b == a;
    } else {
      assert (a + b)[..|a + b| - 1] == a + b[..|b| - 1];
      DeletionsAppend(a, b[..|b| - 1], today, now, retentionSeconds);
    }
  }

  /** One entry is in the deletions exactly when it is decided Deleted. */
  lemma DeletionsSingle(e: Entry, today: string, now: real, retentionSeconds: int)
    ensures Deletions([e], today, now, retentionSeconds)
      == if Decide(e, today, now, retentionSeconds) == Deleted then [e] else []
  {
    assert [e][..0] == [];
  }

  /** In one directory, the files removed are exactly its deletions, in
      listing order, after those removed before. */
  lemma {:induction false} DirTallyRemoved(t: Tally, entries: seq<Entry>, today: string, now: real, retentionSeconds: int)
    ensures DirTally(t, entries, today, now, retentionSeconds).removed
      == t.removed + Deletions(entries, today, now, retentionSeconds)
    decreases |entries|
  {
    if entries != [] {
      DirTallyRemoved(t, entries[..|entries| - 1], today, now, retentionSeconds);
    }
  }

  /** Over the whole job, `removed` is exactly the deletions of each target
      directory, in the order of the directories and of their listings. */
  lemma {:induction false} CleanupRemoved(dirs: seq<Option<seq<Entry>>>, today: string, now: real, retentionSeconds: int)
    ensures AllTally(dirs, today, now, retentionSeconds).removed == AllDeletions(dirs, today, now, retentionSeconds)
    decreases |dirs|
  {
    if dirs != [] {
      CleanupRemoved(dirs[..|dirs| - 1], today, now, retentionSeconds);
      if dirs[|dirs| - 1].Some? {
        DirTallyRemoved(AllTally(dirs[..|dirs| - 1], today, now, retentionSeconds),
                        dirs[|dirs| - 1].value, today, now, retentionSeconds);
      }
    }
  }

  function AllFiles(dirs: seq<Option<seq<Entry>>>): nat {
    if dirs == [] then 0
    else AllFiles(dirs[..|dirs| - 1]) + (if dirs[|dirs| - 1].Some? then FileCount(dirs[|dirs| - 1].value) else 0)
  }

  /** Over the whole job: deleted plus skipped never exceeds the number of
      regular files, the deleted count is the number of removed files, and
      none of them was a preserved file or a file within the retention
      period. */
  lemma {:induction false} CleanupAccounts(dirs: seq<Option<seq<Entry>>>, today: string, now: real, retentionSeconds: int)
    ensures var r := AllTally(dirs, today, now, retentionSeconds);
      && r.deleted + r.skipped <= AllFiles(dirs)
      && r.deleted == |r.removed|
      && (forall k :: 0 <= k < |r.removed| ==>
            r.removed[k].isFile && !ShouldPreserve(r.removed[k].name, today)
            && now - r.removed[k].mtime > retentionSeconds as real)
    decreases |dirs|
  {
    if dirs != [] {
      var t := AllTally(dirs[..|dirs| - 1], today, now, retentionSeconds);
      CleanupAccounts(dirs[..|dirs| - 1], today, now, retentionSeconds);
      if dirs[|dirs| - 1].Some? {
        DirTallyAccounts(t, dirs[|dirs| - 1].value, today, now, retentionSeconds);
        var r := AllTally(dirs, today, now, retentionSeconds);
        forall k | 0 <= k < |r.removed|
          ensures r.removed[k].isFile && !ShouldPreserve(r.removed[k].name, today)
            && now - r.removed[k].mtime > retentionSeconds as real
        {
          if k < |t.removed| {
            assert r.removed[k] == t.removed[k];
          } else {
            assert Decide(r.removed[k], today, now, retentionSeconds) == Deleted;
          }
        }
      }
    }
  }

  /** When every unlink succeeds, each regular file is counted exactly once. */
  lemma {:induction false} NoFailuresCountsEveryFile(t: Tally, entries: seq<Entry>, today: string, now: real, retentionSeconds: int)
    requires forall k :: 0 <= k < |entries| ==> entries[k].unlinkSucceeds
    ensures var r := DirTally(t, entries, today, now, retentionSeconds);
      r.deleted + r.skipped == t.deleted + t.skipped + FileCount(entries)
    decreases |entries|
  {
    DirTallyAccounts(t, entries, today, now, retentionSeconds);
    NoFailures(entries, today, now, retentionSeconds);
  }

  lemma {:induction false} NoFailures(entries: seq<Entry>, today: string, now: real, retentionSeconds: int)
    requires forall k :: 0 <= k < |entries| ==> entries[k].unlinkSucceeds
    ensures FailedCount(entries, today, now, retentionSeconds) == 0
    decreases |entries|
  {
    if entries != [] {
      NoFailures(entries[..|entries| - 1], today, now, retentionSeconds);
    }
  }
}
