/** The run itself: the worker body that decides one item and records its
    outcome, the coordinator loop that counts completed tasks, and the start
    of a run (reset, discovery, the empty check, the pool). The thread pool
    is replaced by an interleaving of locked sections given as input. */
module Coordinator {
  import opened Paths
  import opened Discovery
  import opened Policy
  import opened Counters
  import opened Schedule

  /** The counter an outcome bumps: skips of both kinds share one counter,
      and every failure is an error. */
  function CounterOf(o: Outcome): (r: Counter)
    ensures r == ConvertedCounter <==> o.Converted?
    ensures r == SkippedCounter <==> o.SkippedExists? || o.SkippedSameFormat?
    ensures r == ErrorsCounter <==> o.Failed?
  {
    match o
    case Converted(_) => ConvertedCounter
    case Failed(_) => ErrorsCounter
    case SkippedExists => SkippedCounter
    case SkippedSameFormat => SkippedCounter
  }

  /** The outcome counter of each item of the work list. */
  function OutcomeCounters(files: seq<FilePath>, cfg: Config, env: FilePath -> ItemEnv): (r: seq<Counter>)
    ensures |r| == |files|
  {
    seq(|files|, i requires 0 <= i < |files| => CounterOf(Decide(files[i], cfg, env(files[i])).outcome))
  }

  /** How a run ends: the preparation thread dies on the listing error, the
      run stops with "No supported images found.", or the pool drains and the
      summary is read from the counters. */
  datatype RunEnd = Crashed | NoImages | Done(summary: Counts)

  /** One worker task: its steps in order, each early return recording one
      outcome under the lock. */
  method ProcessSingleImage(c: JobCounters, item: FilePath, cfg: Config, env: ItemEnv)
    returns (dest: FilePath, outcome: Outcome)
    modifies c
    ensures Processed(dest, outcome) == Decide(item, cfg, env)
    ensures c.Snapshot() == Bump(old(c.Snapshot()), CounterOf(outcome))
  {
    var formatName := FormatName(cfg.target);
    dest := Destination(item, cfg);
    if env.makedirsFails {
      outcome := Failed(MakeDirsError);
      c.RecordOutcome(ErrorsCounter);
      return;
    }
    if dest in env.existing && !cfg.overwrite {
      outcome := SkippedExists;
      c.RecordOutcome(SkippedCounter);
      return;
    }
    match env.probe {
      case NotAnImage =>
        outcome := Failed(Unidentified);
        c.RecordOutcome(ErrorsCounter);
      case OpenFailed =>
        outcome := Failed(OpenError);
        c.RecordOutcome(ErrorsCounter);
      case Opened(format, mode) =>
        var sourceFormat := Lower(format);
        if sourceFormat == formatName && !cfg.overwrite {
          outcome := SkippedSameFormat;
          c.RecordOutcome(SkippedCounter);
          return;
        }
        var encoding: Encoding;
        if cfg.target == Jpg {
          var saved := mode;
          if mode != "RGB" {
            saved := "RGB";
          }
          encoding := JpegEncoding(saved, 100, false);
        } else {
          encoding := PngEncoding(mode);
        }
        if env.saveFails {
          outcome := Failed(SaveError);
          c.RecordOutcome(ErrorsCounter);
          return;
        }
        outcome := Converted(encoding);
        c.RecordOutcome(ConvertedCounter);
    }
  }

  /** The progress snapshots of a run of `n` files: the `j`-th one is taken
      by the `j`-th completion, and each one is consistent. */
  predicate Reported(progress: seq<Counts>, n: nat)
  {
    forall j :: 0 <= j < |progress| ==>
      progress[j].processed == j + 1 && progress[j].total == n && progress[j].Consistent()
  }

  lemma ReportedSnoc(progress: seq<Counts>, snap: Counts, n: nat)
    requires Reported(progress, n)
    requires snap.processed == |progress| + 1 && snap.total == n && snap.Consistent()
    ensures Reported(progress + [snap], n)
  {
  }

  /** One event of the interleaving: a record event runs the item's worker;
      a completion event is one turn of the coordinator's `as_completed`
      loop, which counts one finished task and reads the counters back. */
  method RunEvent(c: JobCounters, files: seq<FilePath>, cfg: Config, env: FilePath -> ItemEnv, e: Event)
    returns (completed: bool, snap: Counts)
    requires e.item < |files|
    modifies c
    ensures c.Snapshot() == Step(old(c.Snapshot()), e, OutcomeCounters(files, cfg, env))
    ensures completed == e.Complete? && (completed ==> snap == c.Snapshot())
  {
    match e {
      case Record(k) =>
        var _, outcome := ProcessSingleImage(c, files[k], cfg, env(files[k]));
        completed, snap := false, c.Snapshot();
      case Complete(_) =>
        snap := c.RecordCompletion();
        completed := true;
    }
  }

  /** The pool: the events of `schedule` run in order. Each completion
      yields the progress snapshot shown to the user. */
  method RunPool(c: JobCounters, files: seq<FilePath>, cfg: Config, env: FilePath -> ItemEnv, schedule: seq<Event>)
    returns (progress: seq<Counts>)
    requires ValidSchedule(schedule, |files|)
    requires c.Snapshot() == Start(|files|)
    modifies c
    ensures c.Snapshot() == Drained(OutcomeCounters(files, cfg, env))
    ensures |progress| == |files|
    ensures forall j :: 0 <= j < |progress| ==>
      progress[j].processed == j + 1 && progress[j].total == |files| && progress[j].Consistent()
  {
    ghost var kinds := OutcomeCounters(files, cfg, env);
    progress := [];
    for i := 0 to |schedule|
      invariant ItemsBelow(schedule[..i], |kinds|)
      invariant c.Snapshot() == Replay(Start(|files|), schedule[..i], kinds)
      invariant |progress| == c.processed
      invariant Reported(progress, |files|)
    {
      ReplayConsistent(schedule, kinds, i + 1);
      ReplayPrefixStep(schedule, kinds, i);
      var completed, snap := RunEvent(c, files, cfg, env, schedule[i]);
      if completed {
        ReportedSnoc(progress, snap, |files|);
        progress := progress + [snap];
      }
    }
    assert schedule[..|schedule|] == schedule;
    ReplayDrains(schedule, kinds);
  }

  /** A whole run: reset the counters, discover the files, stop when none
      qualifies, otherwise publish the total and run the pool. */
  method StartConversion(c: JobCounters, cfg: Config, listing: Listing, env: FilePath -> ItemEnv, schedule: seq<Event>)
    returns (end: RunEnd, progress: seq<Counts>)
    requires ValidSchedule(schedule, |FilesOf(cfg.inputRoot, listing, cfg.recursive)|)
    modifies c
    ensures end == Crashed <==> listing.NotADirectory? && !cfg.recursive
    ensures end == NoImages <==> FilesOf(cfg.inputRoot, listing, cfg.recursive) == [] && (listing.Tree? || cfg.recursive)
    ensures end.Done? <==> FilesOf(cfg.inputRoot, listing, cfg.recursive) != []
    ensures end.Crashed? || end.NoImages? ==> c.Snapshot() == Zero && progress == []
    ensures end.Done? ==>
      var files := FilesOf(cfg.inputRoot, listing, cfg.recursive);
      && files != []
      && end.summary == c.Snapshot() == Drained(OutcomeCounters(files, cfg, env))
      && |progress| == |files|
      && forall j :: 0 <= j < |progress| ==>
        progress[j].processed == j + 1 && progress[j].total == |files| && progress[j].Consistent()
  {
    c.Reset();
    progress := [];
    var found := CollectFiles(cfg.inputRoot, listing, cfg.recursive);
    if found.ListingError? {
      return Crashed, [];
    }
    var files := found.files;
    if |files| == 0 {
      return NoImages, [];
    }
    c.SetTotal(|files|);
    progress := RunPool(c, files, cfg, env, schedule);
    end := Done(c.Snapshot());
  }
}
