/** The names of spooled jobs and the recovery of a repository's queue from its spool directory
    (`job_filename`, `parse_job_filename`, `leftover_jobs`, and the counters of `repo_state`). */
module Spool {
  import opened Decimal
  import opened Graph
  import opened Wrappers

  datatype Job = Job(number: int, sha: string, retention: int)

  const U64_LIMIT := 0x1_0000_0000_0000_0000

  const SUFFIX := ".tar.zst"

  predicate IsJob(j: Job) {
    0 <= j.number < U64_LIMIT && 0 <= j.retention < U64_LIMIT
  }

  // ----- splitting at a character -----

  /** The part before and after the first `c`. */
  function SplitFirst(s: string, c: char): Option<(string, string)> {
    if s == "" then None
    else if s[0] == c then Some(("", s[1..]))
    else match SplitFirst(s[1..], c)
      case None => None
      case Some((a, b)) => Some(([s[0]] + a, b))
  }

  /** The part before and after the last `c`. */
  function SplitLast(s: string, c: char): Option<(string, string)> {
    if s == "" then None else
    var n := |s| - 1;
    if s[n] == c then Some((s[..n], ""))
    else match SplitLast(s[..n], c)
      case None => None
      case Some((a, b)) => Some((a, b + [s[n]]))
  }

  lemma {:induction false} SplitFirstAt(a: string, c: char, b: string)
    requires c !in a
    ensures SplitFirst(a + [c] + b, c) == Some((a, b))
  {
    var s := a + [c] + b;
    if a == "" {
      assert s == [c] + b;
    } else {
      assert s[1..] == a[1..] + [c] + b;
      SplitFirstAt(a[1..], c, b);
      assert s[0] == a[0] && a[0] != c && [a[0]] + a[1..] == a;
    }
  }

  lemma {:induction false} SplitLastAt(a: string, c: char, b: string)
    requires c !in b
    ensures SplitLast(a + [c] + b, c) == Some((a, b))
  {
    var s := a + [c] + b;
    var n := |s| - 1;
    if b == "" {
      assert s[..n] == a;
    } else {
      var k := |b| - 1;
      assert s[..n] == a + [c] + b[..k];
      SplitLastAt(a, c, b[..k]);
      assert b[..k] + [b[k]] == b;
    }
  }

  // ----- the file name of a job -----

  function Stem(j: Job): string
    requires IsJob(j)
  {
    Padded(j.number, 20) + "_" + j.sha + "_" + Padded(j.retention, 0)
  }

  function JobFilename(j: Job): string
    requires IsJob(j)
  {
    Stem(j) + SUFFIX
  }

  function ParseStem(stem: string): Option<Job> {
    match SplitFirst(stem, '_')
    case None => None
    case Some((number, rest)) =>
      match SplitLast(rest, '_')
      case None => None
      case Some((sha, retention)) =>
        var (n, r) := (Parse(number, U64_LIMIT), Parse(retention, U64_LIMIT));
        if n.Some? && r.Some? then Some(Job(n.value, sha, r.value)) else None
  }

  /** The part of a file name before the job suffix. */
  function StripSuffix(name: string): Option<string> {
    var n := |name| - |SUFFIX|;
    if n >= 0 && name[n..] == SUFFIX then Some(name[..n]) else None
  }

  function ParseFilename(name: string): Option<Job> {
    match StripSuffix(name)
    case None => None
    case Some(stem) => ParseStem(stem)
  }

  lemma DigitsHaveNoUnderscore(s: string)
    requires AllDigits(s)
    ensures '_' !in s
  {
  }

  /** The sha is what lies between the first underscore and the last. */
  lemma ParseParts(number: string, sha: string, retention: string)
    requires AllDigits(number) && AllDigits(retention)
    requires Parse(number, U64_LIMIT).Some? && Parse(retention, U64_LIMIT).Some?
    ensures ParseStem(number + ['_'] + (sha + ['_'] + retention))
            == Some(Job(Parse(number, U64_LIMIT).value, sha, Parse(retention, U64_LIMIT).value))
  {
    hide SplitFirst, SplitLast, Parse;
    DigitsHaveNoUnderscore(number);
    DigitsHaveNoUnderscore(retention);
    SplitFirstAt(number, '_', sha + ['_'] + retention);
    SplitLastAt(sha, '_', retention);
  }

  lemma StemRoundTrip(j: Job)
    requires IsJob(j)
    ensures ParseStem(Stem(j)) == Some(j)
  {
    hide ParseStem, Parse, Padded, AllDigits, Value;
    var number, retention := Padded(j.number, 20), Padded(j.retention, 0);
    PaddedValue(j.number, 20);
    PaddedValue(j.retention, 0);
    ParsePadded(j.number, 20, U64_LIMIT);
    ParsePadded(j.retention, 0, U64_LIMIT);
    ParseParts(number, j.sha, retention);
    assert Stem(j) == number + ['_'] + (j.sha + ['_'] + retention);
  }

  /** A job's file name parses back to the job, whatever the sha contains. */
  lemma FilenameRoundTrip(j: Job)
    requires IsJob(j)
    ensures ParseFilename(JobFilename(j)) == Some(j)
  {
    StemRoundTrip(j);
    hide Stem, ParseStem;
    assert JobFilename(j)[..|Stem(j)|] == Stem(j) && JobFilename(j)[|Stem(j)|..] == SUFFIX;
  }

  lemma {:induction false} SplitFirstParts(s: string, c: char)
    ensures var r := SplitFirst(s, c);
            && (r == None <==> c !in s)
            && (r.Some? ==> s == r.value.0 + [c] + r.value.1 && c !in r.value.0)
  {
    if s != "" && s[0] != c {
      SplitFirstParts(s[1..], c);
      assert s == [s[0]] + s[1..];
    }
  }

  lemma {:induction false} SplitLastParts(s: string, c: char)
    ensures var r := SplitLast(s, c);
            && (r == None <==> c !in s)
            && (r.Some? ==> s == r.value.0 + [c] + r.value.1 && c !in r.value.1)
  {
    if s != "" && s[|s| - 1] != c {
      SplitLastParts(s[..|s| - 1], c);
      assert s == s[..|s| - 1] + [s[|s| - 1]];
    }
  }

  ghost predicate IsNameOf(name: string, number: string, retention: string, j: Job) {
    && name == number + "_" + j.sha + "_" + retention + ".tar.zst" && '_' !in number && '_' !in retention
    && Parse(number, 0x1_0000_0000_0000_0000) == Some(j.number)
    && Parse(retention, 0x1_0000_0000_0000_0000) == Some(j.retention)
  }

  /** A file is a job's exactly if its name is a number, the sha and a retention between underscores, with the
      suffix of snapshots; numbers are unsigned and of 64 bits. */
  lemma NamesOfJobs(name: string, j: Job)
    ensures ParseFilename(name) == Some(j) <==> exists number, retention :: IsNameOf(name, number, retention, j)
  {
    hide SplitFirst, SplitLast, Parse;
    if ParseFilename(name) == Some(j) {
      var stem := StripSuffix(name).value;
      assert name == stem + ".tar.zst";
      SplitFirstParts(stem, '_');
      var rest := SplitFirst(stem, '_').value.1;
      SplitLastParts(rest, '_');
      var number, retention := SplitFirst(stem, '_').value.0, SplitLast(rest, '_').value.1;
      assert stem == number + "_" + j.sha + "_" + retention;
      assert IsNameOf(name, number, retention, j);
    }
    if number, retention :| IsNameOf(name, number, retention, j) {
      var rest := j.sha + ['_'] + retention;
      var stem := number + ['_'] + rest;
      assert name == stem + ".tar.zst";
      assert name[..|stem|] == stem && name[|stem|..] == SUFFIX;
      SplitFirstAt(number, '_', rest);
      SplitLastAt(j.sha, '_', retention);
    }
  }

  /** The number is padded to twenty digits. */
  lemma FilenameForm(j: Job)
    requires IsJob(j)
    ensures JobFilename(j) == Padded(j.number, 20) + "_" + j.sha + "_" + Digits(j.retention) + ".tar.zst"
    ensures |Padded(j.number, 20)| == 20
  {
    Power20();
    PaddedLength(j.number, 20);
  }

  lemma Power20()
    ensures Power10(20) == 100_000_000_000_000_000_000
  {
    assert Power10(5) == 100_000;
    assert Power10(10) == 10_000_000_000;
    assert Power10(15) == 1_000_000_000_000_000;
  }

  /** So distinct jobs never share a file. */
  lemma FilenamesDiffer(j: Job, k: Job)
    requires IsJob(j) && IsJob(k) && j != k
    ensures JobFilename(j) != JobFilename(k)
  {
    FilenameRoundTrip(j);
    FilenameRoundTrip(k);
  }

  /** Partial uploads and signatures in the same directory are not taken for jobs. */
  lemma SidecarsAreNotJobs(stem: string)
    ensures ParseFilename(stem + ".tmp").None? && ParseFilename(stem + ".sig").None?
  {
    var t, s := stem + ".tmp", stem + ".sig";
    assert t[|t| - 1] == 'p' && s[|s| - 1] == 'g' && SUFFIX[7] == 't';
  }

  // ----- recovery -----

  ghost predicate InSequence(jobs: seq<Job>) {
    forall i, k :: 0 <= i < k < |jobs| ==> jobs[i].number <= jobs[k].number
  }

  function InsertJob(j: Job, jobs: seq<Job>): seq<Job> {
    if jobs == [] then [j]
    else if jobs[|jobs| - 1].number <= j.number then jobs + [j]
    else InsertJob(j, jobs[..|jobs| - 1]) + [jobs[|jobs| - 1]]
  }

  lemma {:induction false} InsertJobSorts(j: Job, jobs: seq<Job>)
    requires InSequence(jobs)
    ensures InSequence(InsertJob(j, jobs)) && |InsertJob(j, jobs)| == |jobs| + 1
    ensures forall k :: k in InsertJob(j, jobs) <==> k == j || k in jobs
  {
    if jobs != [] {
      var last, rest := jobs[|jobs| - 1], jobs[..|jobs| - 1];
      assert jobs == rest + [last];
      if last.number > j.number {
        InsertJobSorts(j, rest);
        var r := InsertJob(j, rest);
        forall i | 0 <= i < |r| ensures r[i].number <= last.number {
          assert r[i] in r;
        }
      }
    }
  }

  /** The files that name a job. */
  ghost function JobFiles(files: set<string>): set<string> {
    set f | f in files && ParseFilename(f).Some?
  }

  /** The jobs that the files of a directory name, in sequence order. */
  method LeftoverJobs(files: set<string>) returns (jobs: seq<Job>)
    ensures InSequence(jobs) && |jobs| == |JobFiles(files)|
    ensures forall j :: j in jobs <==> exists f :: f in files && ParseFilename(f) == Some(j)
  {
    hide ParseFilename, InSequence, InsertJob;
    jobs := [];
    var todo := files;
    assert files - todo == {} && JobFiles({}) == {};
    NothingInSequence();
    while todo != {}
      invariant todo <= files && InSequence(jobs) && |jobs| == |JobFiles(files - todo)|
      invariant forall j :: j in jobs <==> exists f :: f in files - todo && ParseFilename(f) == Some(j)
      decreases todo
    {
      var f := Pick(todo);
      var j := ParseFilename(f);
      ghost var seen := files - todo;
      todo := todo - {f};
      assert files - todo == seen + {f};
      JobFilesNext(seen, f);
      hide JobFiles;
      if j.Some? {
        InsertJobSorts(j.value, jobs);
        jobs := InsertJob(j.value, jobs);
      }
    }
    assert files - todo == files;
  }

  lemma JobFilesNext(files: set<string>, f: string)
    requires f !in files
    ensures |JobFiles(files + {f})| == |JobFiles(files)| + (if ParseFilename(f).Some? then 1 else 0)
  {
    hide ParseFilename;
    assert JobFiles(files + {f}) == JobFiles(files) + (if ParseFilename(f).Some? then {f} else {});
  }

  lemma NothingInSequence()
    ensures InSequence([])
  {
  }

  ghost predicate DistinctNumbers(jobs: set<Job>) {
    forall j, k :: j in jobs && k in jobs && j.number == k.number ==> j == k
  }

  /** A spool directory holds one file for each of `jobs` and otherwise only files that are not jobs. */
  ghost predicate Holds(files: set<string>, jobs: set<Job>) {
    && (forall j :: j in jobs ==> IsJob(j) && j.number < U64_LIMIT - 1 && JobFilename(j) in files)
    && (forall f :: f in files && ParseFilename(f).Some? ==> exists j :: j in jobs && IsJob(j) && f == JobFilename(j))
  }

  /** What the registry writes there: job files, partial uploads and signatures. */
  lemma RegistryDirectoryHolds(jobs: set<Job>, uploads: set<string>, signatures: set<string>)
    requires forall j :: j in jobs ==> IsJob(j) && j.number < U64_LIMIT - 1
    ensures var files := (set j | j in jobs && IsJob(j) :: JobFilename(j))
                         + (set u | u in uploads :: u + ".tmp") + (set s | s in signatures :: s + ".sig");
            Holds(files, jobs)
  {
    hide ParseFilename, JobFilename, IsJob;
    var files := set j | j in jobs && IsJob(j) :: JobFilename(j);
    var partials, signed := set u | u in uploads :: u + ".tmp", set s | s in signatures :: s + ".sig";
    forall f | f in partials + signed ensures ParseFilename(f).None? {
      if u :| u in uploads && f == u + ".tmp" {
        SidecarsAreNotJobs(u);
      } else {
        var s :| s in signatures && f == s + ".sig";
        SidecarsAreNotJobs(s);
      }
    }
    assert forall f :: f in files + partials + signed ==> f in files || f in partials + signed;
  }

  lemma RecoveredJobs(files: set<string>, jobs: set<Job>, k: Job)
    requires Holds(files, jobs)
    ensures k in jobs <==> exists f :: f in files && ParseFilename(f) == Some(k)
  {
    if k in jobs {
      FilenameRoundTrip(k);
    }
    if f :| f in files && ParseFilename(f) == Some(k) {
      var j :| j in jobs && IsJob(j) && f == JobFilename(j);
      FilenameRoundTrip(j);
    }
  }

  lemma {:induction false} RecoveredCount(files: set<string>, jobs: set<Job>)
    requires Holds(files, jobs)
    ensures |JobFiles(files)| == |jobs|
    decreases |jobs|
  {
    hide ParseFilename, IsJob, JobFilename;
    if jobs == {} {
      assert JobFiles(files) == {};
    } else {
      var j :| j in jobs;
      FilenameRoundTrip(j);
      var rest, files' := jobs - {j}, files - {JobFilename(j)};
      forall k | k in rest ensures JobFilename(k) in files' {
        FilenamesDiffer(j, k);
      }
      RecoveredCount(files', rest);
      assert JobFiles(files) == JobFiles(files') + {JobFilename(j)};
    }
  }

  /** Reopening a spool directory gives back its jobs in sequence order, a next number above all of
      them and a pending count that is theirs. */
  method Recover(files: set<string>, ghost jobs: set<Job>) returns (queue: seq<Job>, nextNumber: int, pending: int)
    requires Holds(files, jobs) && DistinctNumbers(jobs)
    ensures Elems(queue) == jobs && pending == |queue| == |jobs|
    ensures forall i, k :: 0 <= i < k < |queue| ==> queue[i].number < queue[k].number
    ensures 0 <= nextNumber < U64_LIMIT && forall j :: j in jobs ==> j.number < nextNumber
    ensures nextNumber == 0 <==> jobs == {}
    ensures nextNumber > 0 ==> exists j :: j in jobs && j.number == nextNumber - 1
  {
    queue := LeftoverJobs(files);
    RecoveredCount(files, jobs);
    forall j ensures j in queue <==> j in jobs {
      RecoveredJobs(files, jobs, j);
    }
    SameCountIsDistinct(queue, jobs);
    StrictlyInSequence(queue, jobs);
    hide Holds, JobFiles, ParseFilename, JobFilename;
    pending := |queue|;
    nextNumber := 0;
    if queue != [] {
      nextNumber := queue[|queue| - 1].number + 1;
      LastIsLargest(files, queue, jobs);
    }
  }

  lemma SameCountIsDistinct(queue: seq<Job>, jobs: set<Job>)
    requires |queue| == |jobs| && forall j :: j in queue <==> j in jobs
    ensures Elems(queue) == jobs && Distinct(queue)
  {
    assert Elems(queue) == jobs;
    CountIsDistinct(queue);
  }

  lemma {:induction false} CountIsDistinct(s: seq<Job>)
    ensures |Elems(s)| <= |s|
    ensures |Elems(s)| == |s| ==> Distinct(s)
  {
    if s != [] {
      var n := |s| - 1;
      CountIsDistinct(s[..n]);
      ElemsAppend(s[..n], s[n]);
      assert s == s[..n] + [s[n]];
    }
  }

  lemma StrictlyInSequence(queue: seq<Job>, jobs: set<Job>)
    requires InSequence(queue) && Distinct(queue) && DistinctNumbers(jobs) && forall j :: j in queue ==> j in jobs
    ensures forall i, k :: 0 <= i < k < |queue| ==> queue[i].number < queue[k].number
  {
    forall i, k | 0 <= i < k < |queue| ensures queue[i].number < queue[k].number {
      assert queue[i] in jobs && queue[k] in jobs && queue[i] != queue[k];
    }
  }

  lemma LastIsLargest(files: set<string>, queue: seq<Job>, jobs: set<Job>)
    requires queue != [] && Elems(queue) == jobs && Holds(files, jobs)
    requires forall i, k :: 0 <= i < k < |queue| ==> queue[i].number < queue[k].number
    ensures var last := queue[|queue| - 1];
            last in jobs && 0 <= last.number < U64_LIMIT - 1 && forall j :: j in jobs ==> j.number <= last.number
  {
    assert queue[|queue| - 1] in Elems(queue);
    assert queue[|queue| - 1] in jobs && IsJob(queue[|queue| - 1]);
    hide Holds, IsJob;
    forall j | j in jobs ensures j.number <= queue[|queue| - 1].number {
      assert j in queue;
    }
  }
}
