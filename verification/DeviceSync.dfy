/** How `incremental_install.py` brings one directory of the device in line with a build.

    The manifest in the directory works as a commit record: it is deleted before anything
    else changes and pushed only after every push succeeded.  Each adb command is one act;
    the pushes run in parallel, so they come in any order, and a run may stop after any
    act.  A file is represented by its checksum, which identifies its contents. */
module DeviceSync {

  /** The files of one directory: name to contents. */
  type Files = map<string, string>

  /** A manifest read back: the files it lists, unless it cannot be parsed. */
  datatype Index = Unreadable | Index(entries: Files)

  /** The differences between the directories kept in sync: the manifest's name and format,
      whether an empty manifest counts as one, whether a directory without a manifest is
      wiped, and (if not) the only names it may hold. */
  datatype Store = Store(manifest: string, parse: string -> Index, emptyCounts: bool, wipes: bool, fixed: set<string>)

  /** What was built: the files to install and the manifest text that lists them. */
  datatype Job = Job(target: Files, text: string, full: bool)

  datatype Phase =
    | Begin
    | Missing
    | Decided(was: Files, found: bool)
    | Unlisted(was: Files)
    | Pushing(todo: set<string>)
    | Draining(todo: set<string>)
    | Done
    | Failed

  datatype Run = Run(d: Files, phase: Phase)

  /** An adb command with its outcome: `ok` is what it reported, `ran` whether it took
      effect.  A failed removal may have removed some of the files, a failed push may have
      left anything under that name. */
  datatype Act =
    | Fetch(pullOk: bool)
    | FetchRaises
    | Wipe(ok: bool, ran: bool)
    | Skip
    | Unlist(ok: bool, ran: bool)
    | Clean(ok: bool, removed: set<string>)
    | Push(name: string, ok: bool, touched: bool, left: string)
    | Commit(ok: bool, ran: bool)

  predicate Counts(store: Store, text: string) { text != "" || store.emptyCounts }

  /** The device holds a manifest that the next run will take at its word. */
  predicate Listed(store: Store, d: Files) { store.manifest in d && Counts(store, d[store.manifest]) }

  function Contents(store: Store, d: Files): Files { d - {store.manifest} }

  function ToDelete(was: Files, target: Files): set<string> { was.Keys - target.Keys }

  function ToUpload(was: Files, target: Files): set<string> {
    set n | n in target && (n !in was || was[n] != target[n])
  }

  predicate UpToDate(store: Store, job: Job, was: Files, found: bool) {
    ToDelete(was, job.target) == {} && ToUpload(was, job.target) == {} && (found || !store.emptyCounts)
  }

  predicate Enabled(store: Store, job: Job, s: Run, a: Act) {
    match a
    case Fetch(_) => s.phase.Begin?
    case FetchRaises => s.phase.Begin?
    case Wipe(ok, ran) => s.phase.Missing? && (ok ==> ran)
    case Skip => s.phase.Decided? && UpToDate(store, job, s.phase.was, s.phase.found)
    case Unlist(ok, ran) => s.phase.Decided? && !UpToDate(store, job, s.phase.was, s.phase.found) && (ok ==> ran)
    case Clean(ok, removed) =>
      s.phase.Unlisted? && removed <= ToDelete(s.phase.was, job.target)
      && (ok ==> removed == ToDelete(s.phase.was, job.target))
    case Push(name, ok, touched, left) =>
      (s.phase.Pushing? || s.phase.Draining?) && name in s.phase.todo && name in job.target
      && (ok ==> touched && left == job.target[name])
    case Commit(ok, ran) => s.phase == Pushing({}) && (ok ==> ran)
  }

  function Do(store: Store, job: Job, s: Run, a: Act): Run
    requires Enabled(store, job, s, a)
  {
    match a
    case Fetch(pullOk) =>
      if !job.full && pullOk && Listed(store, s.d) then
        match store.parse(s.d[store.manifest])
        case Unreadable => s.(phase := Failed)
        case Index(was) => s.(phase := Decided(was, true))
      else if store.wipes then s.(phase := Missing)
      else s.(phase := Decided(map[], false))
    case FetchRaises => s.(phase := Failed)
    case Wipe(ok, ran) =>
      Run(if ran then map[] else s.d, if ok then Decided(map[], false) else Failed)
    case Skip => s.(phase := Done)
    case Unlist(ok, ran) =>
      Run(if ran then s.d - {store.manifest} else s.d, if ok then Unlisted(s.phase.was) else Failed)
    case Clean(ok, removed) =>
      Run(s.d - removed, if ok then Pushing(ToUpload(s.phase.was, job.target)) else Failed)
    case Push(name, ok, touched, left) =>
      Run(if touched then s.d[name := left] else s.d,
          if ok && s.phase.Pushing? then Pushing(s.phase.todo - {name}) else Draining(s.phase.todo - {name}))
    case Commit(ok, ran) =>
      Run(if ran then s.d[store.manifest := job.text] else s.d, if ok then Done else Failed)
  }

  // ---------------------------------------------------------------- what holds after every act

  /** A manifest that is present lists exactly the files that are there. */
  ghost predicate Consistent(store: Store, d: Files) {
    && (Listed(store, d) ==> store.parse(d[store.manifest]) == Index(Contents(store, d)))
    && (!store.wipes ==> d.Keys <= store.fixed + {store.manifest})
  }

  /** What a build hands to the installer: a text that lists the target, and no file that
      would land on the manifest. */
  ghost predicate ValidJob(store: Store, job: Job) {
    && store.parse(job.text) == Index(job.target)
    && Counts(store, job.text)
    && store.manifest !in job.target
    && (job.target == map[] ==> store.emptyCounts)
    && (!store.wipes ==> job.target.Keys == store.fixed)
  }

  ghost predicate Inv(store: Store, job: Job, s: Run) {
    match s.phase
    case Begin => Consistent(store, s.d)
    case Missing => Consistent(store, s.d)
    case Decided(was, found) =>
      && Consistent(store, s.d)
      && (found ==> Listed(store, s.d) && Contents(store, s.d) == was)
      && (!found ==> was == map[] && (store.wipes ==> s.d == map[]))
    case Unlisted(was) =>
      && store.manifest !in s.d
      && (s.d == was || (was == map[] && !store.wipes))
      && (!store.wipes ==> s.d.Keys <= store.fixed)
    case Pushing(todo) =>
      && todo <= job.target.Keys
      && s.d.Keys <= job.target.Keys
      && forall n :: n in job.target && n !in todo ==> n in s.d && s.d[n] == job.target[n]
    case Draining(todo) =>
      todo <= job.target.Keys && s.d.Keys <= job.target.Keys
    case Done =>
      && store.manifest in s.d
      && Contents(store, s.d) == job.target
      && store.parse(s.d[store.manifest]) == Index(job.target)
    case Failed => Consistent(store, s.d)
  }

  lemma InvConsistent(store: Store, job: Job, s: Run)
    requires ValidJob(store, job) && Inv(store, job, s)
    ensures Consistent(store, s.d)
  {
    assert s.phase.Done? && !store.wipes ==> Contents(store, s.d).Keys == store.fixed;
  }

  lemma NothingToDo(was: Files, target: Files)
    requires ToDelete(was, target) == {} && ToUpload(was, target) == {}
    ensures was == target
  {
    forall n | n in target ensures n in was && was[n] == target[n] {
      assert n !in ToUpload(was, target);
    }
    forall n | n in was ensures n in target {
      assert n !in ToDelete(was, target);
    }
  }

  lemma CleanKeeps(store: Store, job: Job, s: Run, ok: bool, removed: set<string>)
    requires ValidJob(store, job) && Inv(store, job, s) && Enabled(store, job, s, Clean(ok, removed))
    ensures Inv(store, job, Do(store, job, s, Clean(ok, removed)))
  {
    var was := s.phase.was;
    var d' := s.d - removed;
    if ok {
      forall n | n in d' ensures n in job.target {
        assert n !in ToDelete(was, job.target);
      }
      forall n | n in job.target && n !in ToUpload(was, job.target)
        ensures n in d' && d'[n] == job.target[n]
      {
      }
    }
  }

  lemma CommitKeeps(store: Store, job: Job, s: Run, ok: bool, ran: bool)
    requires ValidJob(store, job) && Inv(store, job, s) && Enabled(store, job, s, Commit(ok, ran))
    ensures Inv(store, job, Do(store, job, s, Commit(ok, ran)))
  {
    assert s.d == job.target;
    assert Contents(store, s.d[store.manifest := job.text]) == job.target;
  }

  /** Every act keeps the invariant, whatever it reports. */
  lemma DoKeeps(store: Store, job: Job, s: Run, a: Act)
    requires ValidJob(store, job) && Inv(store, job, s) && Enabled(store, job, s, a)
    ensures Inv(store, job, Do(store, job, s, a))
  {
    match a
    case Fetch(_) =>
    case FetchRaises =>
    case Wipe(_, _) =>
    case Skip =>
      NothingToDo(s.phase.was, job.target);
    case Unlist(ok, ran) =>
      assert s.phase.found && ran ==> s.d - {store.manifest} == s.phase.was;
    case Clean(ok, removed) => CleanKeeps(store, job, s, ok, removed);
    case Push(_, _, _, _) =>
    case Commit(ok, ran) => CommitKeeps(store, job, s, ok, ran);
  }

  // ---------------------------------------------------------------- runs and histories

  ghost predicate IsRun(store: Store, job: Job, s: Run, acts: seq<Act>)
    decreases |acts|
  {
    acts == [] || (Enabled(store, job, s, acts[0]) && IsRun(store, job, Do(store, job, s, acts[0]), acts[1..]))
  }

  ghost function After(store: Store, job: Job, s: Run, acts: seq<Act>): Run
    requires IsRun(store, job, s, acts)
    decreases |acts|
  {
    if acts == [] then s else After(store, job, Do(store, job, s, acts[0]), acts[1..])
  }

  lemma {:induction false} RunKeeps(store: Store, job: Job, s: Run, acts: seq<Act>)
    requires ValidJob(store, job) && Inv(store, job, s) && IsRun(store, job, s, acts)
    ensures Inv(store, job, After(store, job, s, acts))
    decreases |acts|
  {
    if acts != [] {
      DoKeeps(store, job, s, acts[0]);
      RunKeeps(store, job, Do(store, job, s, acts[0]), acts[1..]);
    }
  }

  /** A history: several runs, of different builds, each cut off where its acts end. */
  ghost predicate IsHistory(store: Store, d: Files, runs: seq<(Job, seq<Act>)>)
    decreases |runs|
  {
    runs == [] ||
    (&& ValidJob(store, runs[0].0)
     && IsRun(store, runs[0].0, Run(d, Begin), runs[0].1)
     && IsHistory(store, After(store, runs[0].0, Run(d, Begin), runs[0].1).d, runs[1..]))
  }

  ghost function LeftBy(store: Store, d: Files, runs: seq<(Job, seq<Act>)>): Files
    requires IsHistory(store, d, runs)
    decreases |runs|
  {
    if runs == [] then d else LeftBy(store, After(store, runs[0].0, Run(d, Begin), runs[0].1).d, runs[1..])
  }

  /** Crash consistency: after every act of every run, however the runs before it ended, a
      manifest that is on the device lists exactly the files that are there. */
  lemma {:induction false} CrashConsistent(store: Store, d: Files, runs: seq<(Job, seq<Act>)>)
    requires Consistent(store, d) && IsHistory(store, d, runs)
    ensures Consistent(store, LeftBy(store, d, runs))
    decreases |runs|
  {
    if runs != [] {
      var job, acts := runs[0].0, runs[0].1;
      RunKeeps(store, job, Run(d, Begin), acts);
      InvConsistent(store, job, After(store, job, Run(d, Begin), acts));
      CrashConsistent(store, After(store, job, Run(d, Begin), acts).d, runs[1..]);
    }
  }

  /** Convergence: from whatever a history of interrupted runs left behind, a run that gets
      to its end leaves exactly the files of its build, listed by its manifest. */
  lemma Converges(store: Store, d: Files, runs: seq<(Job, seq<Act>)>, job: Job, acts: seq<Act>)
    requires Consistent(store, d) && IsHistory(store, d, runs)
    requires ValidJob(store, job)
    requires IsRun(store, job, Run(LeftBy(store, d, runs), Begin), acts)
    ensures var end := After(store, job, Run(LeftBy(store, d, runs), Begin), acts);
            end.phase.Done? ==>
              && store.manifest in end.d
              && Contents(store, end.d) == job.target
              && store.parse(end.d[store.manifest]) == Index(job.target)
  {
    CrashConsistent(store, d, runs);
    RunKeeps(store, job, Run(LeftBy(store, d, runs), Begin), acts);
  }

  /** A file the old manifest lists with the checksum of the build is left alone. */
  ghost predicate Spares(store: Store, job: Job, s: Run, n: string) {
    n in job.target && n in s.d && s.d[n] == job.target[n] &&
    match s.phase
    case Decided(was, found) => n in was && was[n] == job.target[n]
    case Unlisted(was) => n in was && was[n] == job.target[n]
    case Pushing(todo) => n !in todo
    case Draining(todo) => n !in todo
    case Done => true
    case Failed => true
    case _ => false
  }

  /** Minimal work: once the manifest has been read, no act of the run pushes or removes a
      file that it lists with an unchanged checksum, whether or not the run succeeds. */
  lemma {:induction false} OnlyChangesArePushed(store: Store, job: Job, s: Run, acts: seq<Act>, n: string)
    requires ValidJob(store, job) && IsRun(store, job, s, acts) && Spares(store, job, s, n)
    ensures Spares(store, job, After(store, job, s, acts), n)
    ensures forall a :: a in acts && a.Push? ==> a.name != n
    decreases |acts|
  {
    if acts != [] {
      var s' := Do(store, job, s, acts[0]);
      assert acts[0].Clean? ==> n !in ToDelete(s.phase.was, job.target);
      assert acts[0].Clean? ==> n !in ToUpload(s.phase.was, job.target);
      OnlyChangesArePushed(store, job, s', acts[1..], n);
    }
  }

  lemma FetchSpares(store: Store, job: Job, d: Files, n: string)
    requires Consistent(store, d) && ValidJob(store, job) && !job.full && Listed(store, d)
    requires n in job.target && n in d && d[n] == job.target[n]
    ensures Spares(store, job, Do(store, job, Run(d, Begin), Fetch(true)), n)
  {
  }

  /** Wiping is the one removal done while a manifest may be present.  If the command is cut
      off half way, the directory stays consistent exactly when the manifest is gone (or
      counts for nothing), or nothing else is. */
  lemma InterruptedWipeIff(store: Store, d: Files, removed: set<string>)
    requires Consistent(store, d) && store.wipes
    ensures Consistent(store, d - removed) <==>
            (Listed(store, d) && store.manifest !in removed ==> removed !! d.Keys)
  {
    var d' := d - removed;
    if Listed(store, d) && store.manifest !in removed {
      assert Listed(store, d');
      if removed !! d.Keys {
        assert d' == d;
      } else {
        var n :| n in removed && n in d;
        assert n in Contents(store, d) && n !in Contents(store, d');
      }
    }
  }

  /** Pushing the manifest is the one push that must not be cut off.  With `text` left in its
      place, the directory stays consistent exactly when that text counts for nothing or
      still lists the build. */
  lemma InterruptedCommitIff(store: Store, job: Job, text: string)
    requires ValidJob(store, job)
    ensures Consistent(store, job.target[store.manifest := text]) <==>
            (Counts(store, text) ==> store.parse(text) == Index(job.target))
  {
    var d := job.target[store.manifest := text];
    assert Contents(store, d) == job.target;
  }

  // ---------------------------------------------------------------- runs from a torn directory

  /** Where the old manifest agrees with the build, it tells the truth about the directory. */
  ghost predicate Trusted(was: Files, there: Files, target: Files) {
    forall n :: n in was && n in target && was[n] == target[n] ==> n in there && there[n] == target[n]
  }

  /** The files that neither the old manifest nor the build names. */
  ghost function Strays(was: Files, there: Files, target: Files): Files {
    map n | n in there && n !in was && n !in target :: there[n]
  }

  /** What holds during a run that has read `was` as the manifest of a directory that holds
      `there`. */
  ghost predicate TornInv(store: Store, job: Job, was: Files, there: Files, s: Run) {
    var strays := Strays(was, there, job.target);
    match s.phase
    case Begin => false
    case Missing => false
    case Decided(w, found) => w == was && found && store.manifest in s.d && Contents(store, s.d) == there
    case Unlisted(w) => w == was && s.d == there
    case Pushing(todo) =>
      && todo <= job.target.Keys && s.d.Keys <= strays.Keys + job.target.Keys
      && (forall n :: n in strays ==> n in s.d && s.d[n] == strays[n])
      && (forall n :: n in job.target && n !in todo ==> n in s.d && s.d[n] == job.target[n])
    case Draining(_) => true
    case Done => store.manifest in s.d && Contents(store, s.d) == strays + job.target
    case Failed => true
  }

  lemma TornCleanKeeps(store: Store, job: Job, was: Files, there: Files, s: Run, removed: set<string>)
    requires Trusted(was, there, job.target) && TornInv(store, job, was, there, s) && s.phase.Unlisted?
    requires Enabled(store, job, s, Clean(true, removed))
    ensures TornInv(store, job, was, there, Do(store, job, s, Clean(true, removed)))
  {
    var d' := s.d - removed;
    forall n | n in d' ensures n in Strays(was, there, job.target) || n in job.target {
      assert n !in ToDelete(was, job.target);
    }
    forall n | n in job.target && n !in ToUpload(was, job.target) ensures n in d' && d'[n] == job.target[n] {
      assert n in was && was[n] == job.target[n];
    }
  }

  lemma TornSkipKeeps(was: Files, there: Files, target: Files)
    requires Trusted(was, there, target) && was == target
    ensures there == Strays(was, there, target) + target
  {
  }

  lemma TornCommitKeeps(store: Store, job: Job, was: Files, there: Files, s: Run, ok: bool, ran: bool)
    requires store.manifest !in job.target && store.manifest !in there
    requires TornInv(store, job, was, there, s) && Enabled(store, job, s, Commit(ok, ran))
    ensures TornInv(store, job, was, there, Do(store, job, s, Commit(ok, ran)))
  {
    var strays := Strays(was, there, job.target);
    assert s.d == strays + job.target;
    assert Contents(store, s.d[store.manifest := job.text]) == s.d;
  }

  lemma TornDoKeeps(store: Store, job: Job, was: Files, there: Files, s: Run, a: Act)
    requires Trusted(was, there, job.target) && store.manifest !in job.target && store.manifest !in there
    requires TornInv(store, job, was, there, s) && Enabled(store, job, s, a)
    ensures TornInv(store, job, was, there, Do(store, job, s, a))
  {
    match a
    case Fetch(_) =>
    case FetchRaises =>
    case Wipe(_, _) =>
    case Skip =>
      NothingToDo(was, job.target);
      TornSkipKeeps(was, there, job.target);
    case Unlist(ok, ran) => assert s.d - {store.manifest} == there;
    case Clean(ok, removed) => if ok { TornCleanKeeps(store, job, was, there, s, removed); }
    case Push(_, _, _, _) =>
    case Commit(ok, ran) => TornCommitKeeps(store, job, was, there, s, ok, ran);
  }

  lemma {:induction false} TornRunKeeps(store: Store, job: Job, was: Files, there: Files, s: Run, acts: seq<Act>)
    requires Trusted(was, there, job.target) && store.manifest !in job.target && store.manifest !in there
    requires TornInv(store, job, was, there, s) && IsRun(store, job, s, acts)
    ensures TornInv(store, job, was, there, After(store, job, s, acts))
    decreases |acts|
  {
    if acts != [] {
      TornDoKeeps(store, job, was, there, s, acts[0]);
      TornRunKeeps(store, job, was, there, Do(store, job, s, acts[0]), acts[1..]);
    }
  }

  /** The end of a run that starts by reading whatever text stands in the manifest's place: it
      fails if the text cannot be parsed; and if it gets to its end, it leaves the build
      together with exactly the files that neither that text nor the build names. */
  lemma {:induction false} TornOutcome(store: Store, job: Job, d: Files, acts: seq<Act>)
    requires store.manifest !in job.target && !job.full && Listed(store, d)
    requires IsRun(store, job, Run(d, Begin), acts) && acts != [] && acts[0] == Fetch(true)
    ensures store.parse(d[store.manifest]).Unreadable? ==> After(store, job, Run(d, Begin), acts).phase == Failed
    ensures match store.parse(d[store.manifest])
            case Unreadable => true
            case Index(was) =>
              var end := After(store, job, Run(d, Begin), acts);
              Trusted(was, Contents(store, d), job.target) && end.phase == Done ==>
                && store.manifest in end.d
                && Contents(store, end.d) == Strays(was, Contents(store, d), job.target) + job.target
  {
    var s1 := Do(store, job, Run(d, Begin), Fetch(true));
    match store.parse(d[store.manifest])
    case Unreadable => assert acts[1..] == [] by { FailedStops(store, job, s1, acts[1..]); }
    case Index(was) =>
      if Trusted(was, Contents(store, d), job.target) {
        TornRunKeeps(store, job, was, Contents(store, d), s1, acts[1..]);
      }
  }

  lemma FailedStops(store: Store, job: Job, s: Run, acts: seq<Act>)
    requires s.phase == Failed && IsRun(store, job, s, acts)
    ensures acts == []
  {
  }

  // ---------------------------------------------------------------- runs that start by wiping

  /** What a run keeps, from any directory at all, when it does not take an old manifest at its
      word. */
  ghost predicate WipeInv(store: Store, job: Job, s: Run) {
    match s.phase
    case Begin => job.full || !Listed(store, s.d)
    case Decided(was, found) => was == map[] && !found && s.d == map[]
    case Unlisted(was) => was == map[] && s.d == map[]
    case Pushing(todo) => Inv(store, job, s)
    case Done => Inv(store, job, s)
    case _ => true
  }

  /** The files a run has yet to push before it may end. */
  ghost function Owed(job: Job, s: Run): set<string> {
    match s.phase
    case Begin => job.target.Keys
    case Missing => job.target.Keys
    case Decided(_, _) => job.target.Keys
    case Unlisted(_) => job.target.Keys
    case Pushing(todo) => todo
    case _ => {}
  }

  lemma WipeDoKeeps(store: Store, job: Job, s: Run, a: Act)
    requires store.wipes && ValidJob(store, job) && WipeInv(store, job, s) && Enabled(store, job, s, a)
    ensures var s' := Do(store, job, s, a);
            && WipeInv(store, job, s')
            && (s'.phase.Draining? || s'.phase.Failed?
                || Owed(job, s) <= Owed(job, s') + (if a.Push? && a.ok then {a.name} else {}))
  {
    match a
    case Skip =>
      NothingToDo(map[], job.target);
      assert false;
    case Clean(ok, removed) =>
      if ok {
        assert ToDelete(map[], job.target) == {} && ToUpload(map[], job.target) == job.target.Keys;
        assert s.d - removed == map[];
      }
    case Commit(ok, ran) => CommitKeeps(store, job, s, ok, ran);
    case _ =>
  }

  lemma {:induction false} DrainingStays(store: Store, job: Job, s: Run, acts: seq<Act>)
    requires s.phase.Draining? && IsRun(store, job, s, acts)
    ensures After(store, job, s, acts).phase.Draining?
    decreases |acts|
  {
    if acts != [] { DrainingStays(store, job, Do(store, job, s, acts[0]), acts[1..]); }
  }

  ghost predicate Pushed(job: Job, acts: seq<Act>, names: set<string>) {
    forall n :: n in names && n in job.target ==> Push(n, true, true, job.target[n]) in acts
  }

  lemma {:induction false} WipeRunKeeps(store: Store, job: Job, s: Run, acts: seq<Act>)
    requires store.wipes && ValidJob(store, job) && WipeInv(store, job, s) && IsRun(store, job, s, acts)
    ensures var end := After(store, job, s, acts);
            WipeInv(store, job, end) && (end.phase.Done? && !s.phase.Draining? ==> Pushed(job, acts, Owed(job, s)))
    decreases |acts|
  {
    if acts != [] {
      var a, s' := acts[0], Do(store, job, s, acts[0]);
      WipeDoKeeps(store, job, s, a);
      WipeRunKeeps(store, job, s', acts[1..]);
      if s'.phase.Draining? {
        DrainingStays(store, job, s', acts[1..]);
      } else if s'.phase.Failed? {
        FailedStops(store, job, s', acts[1..]);
      } else if After(store, job, s, acts).phase.Done? {
        forall n | n in Owed(job, s) && n in job.target ensures Push(n, true, true, job.target[n]) in acts {
          if n !in Owed(job, s') { assert a == Push(n, true, true, job.target[n]); }
        }
      }
    }
  }

  /** A full installation, and one that finds no manifest, starts afresh: whatever the directory
      held, a run that gets to its end leaves exactly the files of its build, and pushed every
      one of them. */
  lemma WipeConverges(store: Store, job: Job, d: Files, acts: seq<Act>)
    requires store.wipes && ValidJob(store, job) && (job.full || !Listed(store, d))
    requires IsRun(store, job, Run(d, Begin), acts)
    ensures var end := After(store, job, Run(d, Begin), acts);
            end.phase.Done? ==>
              && store.manifest in end.d
              && end.d - {store.manifest} == job.target
              && store.parse(end.d[store.manifest]) == Index(job.target)
              && forall n :: n in job.target ==> Push(n, true, true, job.target[n]) in acts
  {
    WipeRunKeeps(store, job, Run(d, Begin), acts);
  }
}
