/**
 * The storage façade `SDSDatabaseStorage`: the lazily created database
 * adapter and its replacement by schema migrations and reloads, the
 * receiving side of cross-process write notifications, and the read/write
 * entry points. The adapter (`GRDBDatabaseStorageAdapter`) is foreign and is
 * modelled as an opaque generation number; notifications posted, blocks
 * dispatched to the main queue and calls into collaborators are entries
 * appended, in order, to an event log.
 *
 * Also here: the pure helpers of the same file, `SDS.fitsInInt64` and
 * `owsFormatLogMessage`.
 */
module SdsDatabaseStorage {
  import opened Wrappers
  import Decimal

  // ---------------------------------------------------------------------
  // Receiving side of cross-process writes, as a state machine over the
  // one persistent flag `hasPendingCrossProcessWrite`.
  // ---------------------------------------------------------------------

  /** What `CurrentAppContext()` answers about the running process. */
  datatype AppContext = AppContext(isMainApp: bool, isActive: bool)
  {
    /** `isMainAppAndActive` */
    predicate IsMainAppAndActive() {
      isMainApp && isActive
    }
  }

  /** The two main-queue callbacks that drive the receiving side. */
  datatype ReceiverInput =
    | CrossProcessSignal(context: AppContext)  // handleCrossProcessWrite
    | BecameActive                             // didBecomeActive

  /** The flag after one callback, and whether it posted a notification. */
  datatype ReceiverStep = ReceiverStep(pending: bool, posted: bool)

  function Receive(pending: bool, input: ReceiverInput): (step: ReceiverStep)
    // a signal is never lost: afterwards it was either posted or is pending
    ensures input.CrossProcessSignal? && input.context.isMainApp ==> step.posted || step.pending
    // posting never leaves a notification pending that was turned into it
    ensures input.BecameActive? ==> !step.pending && (step.posted <==> pending)
  {
    match input
    case CrossProcessSignal(context) =>
      if !context.isMainApp then ReceiverStep(pending, false)
      else if context.IsMainAppAndActive() then ReceiverStep(pending, true)
      else ReceiverStep(true, false)
    case BecameActive =>
      if pending then ReceiverStep(false, true) else ReceiverStep(pending, false)
  }

  /** The flag after a run of callbacks and the number of notifications posted. */
  datatype ReceiverOutcome = ReceiverOutcome(pending: bool, posts: nat)

  function ReceiveAll(pending: bool, inputs: seq<ReceiverInput>): ReceiverOutcome
    decreases |inputs|
  {
    if inputs == [] then ReceiverOutcome(pending, 0)
    else
      var step := Receive(pending, inputs[0]);
      var rest := ReceiveAll(step.pending, inputs[1..]);
      ReceiverOutcome(rest.pending, rest.posts + (if step.posted then 1 else 0))
  }

  function Signals(inputs: seq<ReceiverInput>): nat
    decreases |inputs|
  {
    if inputs == [] then 0
    else (if inputs[0].CrossProcessSignal? then 1 else 0) + Signals(inputs[1..])
  }

  function Repeat<T>(x: T, k: nat): (r: seq<T>)
    ensures |r| == k && forall i :: 0 <= i < k ==> r[i] == x
  {
    if k == 0 then [] else [x] + Repeat(x, k - 1)
  }

  /** Running two batches of callbacks one after the other. */
  lemma {:induction false} ReceiveAllAppend(pending: bool, a: seq<ReceiverInput>, b: seq<ReceiverInput>)
    ensures var first := ReceiveAll(pending, a);
            var second := ReceiveAll(first.pending, b);
            ReceiveAll(pending, a + b) == ReceiverOutcome(second.pending, first.posts + second.posts)
    decreases |a|
  {
    if a == [] {
      assert a + b == b;
    } else {
      var step := Receive(pending, a[0]);
      assert (a + b)[0] == a[0];
      assert (a + b)[1..] == a[1..] + b;
      ReceiveAllAppend(step.pending, a[1..], b);
    }
  }

  /** Signals that reach the main app while it is inactive post nothing and leave the flag set. */
  lemma {:induction false} InactiveSignalsOnlySetFlag(pending: bool, context: AppContext, k: nat)
    requires context.isMainApp && !context.isActive
    requires k >= 1
    ensures ReceiveAll(pending, Repeat(CrossProcessSignal(context), k)) == ReceiverOutcome(true, 0)
    decreases k
  {
    var xs := Repeat(CrossProcessSignal(context), k);
    assert xs[1..] == Repeat(CrossProcessSignal(context), k - 1);
    if k > 1 {
      InactiveSignalsOnlySetFlag(true, context, k - 1);
    }
  }

  /**
   * The debounce: K >= 1 signals received while the main app is inactive,
   * followed by one activation, yield exactly one notification and a clear flag.
   */
  lemma Debounce(pending: bool, context: AppContext, k: nat)
    requires context.isMainApp && !context.isActive
    requires k >= 1
    ensures ReceiveAll(pending, Repeat(CrossProcessSignal(context), k) + [BecameActive]) == ReceiverOutcome(false, 1)
  {
    InactiveSignalsOnlySetFlag(pending, context, k);
    ReceiveAllAppend(pending, Repeat(CrossProcessSignal(context), k), [BecameActive]);
  }

  /**
   * Debouncing never invents notifications: every notification posted, and
   * a flag still pending at the end, stands for a distinct signal (or for
   * the flag that was pending at the start).
   */
  lemma {:induction false} PostsNeverExceedSignals(pending: bool, inputs: seq<ReceiverInput>)
    ensures var out := ReceiveAll(pending, inputs);
            out.posts + (if out.pending then 1 else 0) <= Signals(inputs) + (if pending then 1 else 0)
    decreases |inputs|
  {
    if inputs != [] {
      PostsNeverExceedSignals(Receive(pending, inputs[0]).pending, inputs[1..]);
    }
  }

  // ---------------------------------------------------------------------
  // The façade.
  // ---------------------------------------------------------------------

  /**
   * `StorageCoordinatorState`; only whether it is `.GRDB` matters here. The
   * state is read from a weak delegate; a reading of `None` means the
   * delegate is gone, and the getter then calls `owsFail`.
   */
  datatype CoordinatorState = Grdb | NotGrdb

  /** What the foreign adapter did with a transaction request. */
  datatype AdapterOutcome =
    | Completed
    | FailedBeforeBody   // the adapter threw before running the block
    | FailedAfterBody    // the adapter threw after the block ran (e.g. at commit)

  datatype Event =
    | AdapterCreated(generation: nat)          // createGrdbStorage()
    | SchemaMigratorRun                        // GRDBSchemaMigrator().runSchemaMigrations()
    | SnapshotForced(generation: nat)          // forceUpdateSnapshot()
    | StorageDidReloadPosted                   // Self.storageDidReload
    | CachesWarmed                             // SSKEnvironment.shared.warmCaches()
    | RegistrationStateDidChangePosted         // .registrationStateDidChange
    | MigrationCompletionRun                   // completion(), on the main queue
    | CrossProcessNotificationPosted           // didReceiveCrossProcessNotification
    | ReadBodyRun(ui: bool)                    // a read or uiRead block
    | WriteBodyRun(benchTitle: string)         // a write block, under its bench title
    | CrossProcessChangeSignalled              // crossProcess.notifyChangedAsync()
    | ProcessTerminated                        // owsFail

  function Posts(posted: bool): seq<Event> {
    if posted then [CrossProcessNotificationPosted] else []
  }

  /** The generations created in a log, in order of creation. */
  function Created(log: seq<Event>): seq<nat>
    decreases |log|
  {
    if log == [] then []
    else Created(log[..|log| - 1]) + (if log[|log| - 1].AdapterCreated? then [log[|log| - 1].generation] else [])
  }

  lemma {:induction false} CreatedAppend(a: seq<Event>, b: seq<Event>)
    ensures Created(a + b) == Created(a) + Created(b)
    decreases |b|
  {
    if b == [] {
      assert a + b == a;
    } else {
      assert (a + b)[..|a + b| - 1] == a + b[..|b| - 1];
      assert (a + b)[|a + b| - 1] == b[|b| - 1];
      CreatedAppend(a, b[..|b| - 1]);
    }
  }

  /** A log without creations adds no generation. */
  lemma {:induction false} CreatedNone(b: seq<Event>)
    requires forall i :: 0 <= i < |b| ==> !b[i].AdapterCreated?
    ensures Created(b) == []
    decreases |b|
  {
    if b != [] {
      CreatedNone(b[..|b| - 1]);
    }
  }

  /** The events of the lazy `grdbStorage` getter: a creation when there is no adapter yet. */
  function LazyCreation(adapter: Option<nat>, nextGeneration: nat): seq<Event> {
    if adapter.None? then [AdapterCreated(nextGeneration)] else []
  }

  /** What one `write` adds to the log after the getter, by what the adapter did. */
  function WriteEvents(benchTitle: string, outcome: AdapterOutcome): (events: seq<Event>)
    // the block runs at most once, and the change is signalled to other
    // processes exactly when the write completed, and only after its block
    ensures (CrossProcessChangeSignalled in events) <==> outcome.Completed?
    ensures (WriteBodyRun(benchTitle) in events) <==> !outcome.FailedBeforeBody?
    ensures |events| <= 2
    ensures outcome.Completed? ==> events == [WriteBodyRun(benchTitle), CrossProcessChangeSignalled]
    ensures !outcome.Completed? ==> |events| >= 1 && events[|events| - 1] == ProcessTerminated
  {
    match outcome
    case Completed => [WriteBodyRun(benchTitle), CrossProcessChangeSignalled]
    case FailedBeforeBody => [ProcessTerminated]
    case FailedAfterBody => [WriteBodyRun(benchTitle), ProcessTerminated]
  }

  /** What one `read` or `uiRead` adds to the log after the getter, by what the adapter did. */
  function ReadEvents(ui: bool, outcome: AdapterOutcome): (events: seq<Event>)
    // reads never signal other processes; a completed read runs its block
    // once, and a failed one ends the process
    ensures CrossProcessChangeSignalled !in events
    ensures (ReadBodyRun(ui) in events) <==> !outcome.FailedBeforeBody?
    ensures |events| <= 2
    ensures outcome.Completed? ==> events == [ReadBodyRun(ui)]
    ensures !outcome.Completed? ==> |events| >= 1 && events[|events| - 1] == ProcessTerminated
  {
    match outcome
    case Completed => [ReadBodyRun(ui)]
    case FailedBeforeBody => [ProcessTerminated]
    case FailedAfterBody => [ReadBodyRun(ui), ProcessTerminated]
  }

  class Storage {
    var hasPendingCrossProcessWrite: bool
    /** `_grdbStorage`: the generation of the installed adapter, if any. */
    var grdbAdapter: Option<nat>
    /** The generation the next `createGrdbStorage()` gives out. */
    var nextGeneration: nat
    var log: seq<Event>

    /**
     * Every adapter is created exactly once, generations in order, and the
     * installed adapter is always the most recently created one.
     */
    ghost predicate Valid()
      reads this
    {
      && Created(log) == Iota(nextGeneration)
      && grdbAdapter == (if nextGeneration == 0 then None else Some(nextGeneration - 1))
    }

    /** The process has not been ended by `owsFail`: nothing more happens once it has. */
    predicate Running()
      reads this
    {
      ProcessTerminated !in log
    }

    constructor ()
      ensures Valid() && Running()
      ensures !hasPendingCrossProcessWrite && grdbAdapter == None && log == []
    {
      hasPendingCrossProcessWrite := false;
      grdbAdapter := None;
      nextGeneration := 0;
      log := [];
    }

    /** `createGrdbStorage()`: a new adapter, not yet installed. */
    method CreateGrdbStorage() returns (generation: nat)
      requires Created(log) == Iota(nextGeneration)
      modifies this
      ensures generation == old(nextGeneration) && nextGeneration == generation + 1
      ensures log == old(log) + [AdapterCreated(generation)]
      ensures Created(log) == Iota(nextGeneration)
      ensures grdbAdapter == old(grdbAdapter)
      ensures hasPendingCrossProcessWrite == old(hasPendingCrossProcessWrite)
    {
      generation := nextGeneration;
      CreatedAppend(log, [AdapterCreated(generation)]);
      log := log + [AdapterCreated(generation)];
      nextGeneration := nextGeneration + 1;
    }

    /** Appends events that create no adapter. */
    method Emit(events: seq<Event>)
      requires forall i :: 0 <= i < |events| ==> !events[i].AdapterCreated?
      modifies this
      ensures log == old(log) + events
      ensures Created(log) == Created(old(log))
      ensures grdbAdapter == old(grdbAdapter) && nextGeneration == old(nextGeneration)
      ensures hasPendingCrossProcessWrite == old(hasPendingCrossProcessWrite)
    {
      CreatedAppend(log, events);
      CreatedNone(events);
      log := log + events;
    }

    /** The `grdbStorage` getter: creates the adapter on first access. */
    method GrdbStorage() returns (generation: nat)
      requires Valid() && Running()
      modifies this
      ensures Valid()
      ensures grdbAdapter == Some(generation)
      ensures old(grdbAdapter).Some? ==>
                generation == old(grdbAdapter).value && log == old(log) && nextGeneration == old(nextGeneration)
      ensures old(grdbAdapter).None? ==> generation == old(nextGeneration)
      ensures log == old(log) + LazyCreation(old(grdbAdapter), old(nextGeneration))
      ensures hasPendingCrossProcessWrite == old(hasPendingCrossProcessWrite)
    {
      if grdbAdapter.Some? {
        generation := grdbAdapter.value;
      } else {
        generation := CreateGrdbStorage();
        grdbAdapter := Some(generation);
      }
    }

    /** `handleCrossProcessWrite`, run on the main queue when another process wrote. */
    method HandleCrossProcessWrite(context: AppContext)
      requires Valid() && Running()
      modifies this
      ensures Valid()
      ensures var step := Receive(old(hasPendingCrossProcessWrite), CrossProcessSignal(context));
              hasPendingCrossProcessWrite == step.pending && log == old(log) + Posts(step.posted)
      ensures !context.isMainApp ==>
                hasPendingCrossProcessWrite == old(hasPendingCrossProcessWrite) && log == old(log)
      ensures context.IsMainAppAndActive() ==>
                hasPendingCrossProcessWrite == old(hasPendingCrossProcessWrite)
                && log == old(log) + [CrossProcessNotificationPosted]
      ensures context.isMainApp && !context.isActive ==> hasPendingCrossProcessWrite && log == old(log)
      ensures grdbAdapter == old(grdbAdapter) && nextGeneration == old(nextGeneration)
    {
      if !context.isMainApp {
        return;
      }
      if context.IsMainAppAndActive() {
        Emit([CrossProcessNotificationPosted]);
      } else {
        hasPendingCrossProcessWrite := true;
      }
    }

    /** `didBecomeActive`: turns a pending signal into one notification. */
    method DidBecomeActive()
      requires Valid() && Running()
      modifies this
      ensures Valid()
      ensures var step := Receive(old(hasPendingCrossProcessWrite), BecameActive);
              hasPendingCrossProcessWrite == step.pending && log == old(log) + Posts(step.posted)
      ensures old(hasPendingCrossProcessWrite) ==>
                !hasPendingCrossProcessWrite && log == old(log) + [CrossProcessNotificationPosted]
      ensures !old(hasPendingCrossProcessWrite) ==> !hasPendingCrossProcessWrite && log == old(log)
      ensures grdbAdapter == old(grdbAdapter) && nextGeneration == old(nextGeneration)
    {
      if !hasPendingCrossProcessWrite {
        return;
      }
      hasPendingCrossProcessWrite := false;
      Emit([CrossProcessNotificationPosted]);
    }

    /**
     * The replacement after incremental migrations: the old adapter's pool is
     * reached through the lazy getter (creating one if there was none), then a
     * newly created adapter is installed in its place.
     */
    method ReplaceAdapter() returns (replacement: nat)
      requires Valid() && Running()
      modifies this
      ensures Valid()
      ensures hasPendingCrossProcessWrite == old(hasPendingCrossProcessWrite)
      ensures var lazy := LazyCreation(old(grdbAdapter), old(nextGeneration));
              && replacement == old(nextGeneration) + |lazy|
              && nextGeneration == replacement + 1
              && grdbAdapter == Some(replacement)
              && log == old(log) + lazy + [AdapterCreated(replacement)]
    {
      var previous := GrdbStorage();
      replacement := CreateGrdbStorage();
      grdbAdapter := Some(replacement);
    }

    /**
     * `runGrdbSchemaMigrations(completion:)`. The migrator is foreign: whether
     * it performed incremental migrations is a parameter.
     */
    method RunGrdbSchemaMigrations(state: Option<CoordinatorState>, didPerformIncrementalMigrations: bool)
      requires Valid() && Running()
      modifies this
      ensures Valid()
      ensures hasPendingCrossProcessWrite == old(hasPendingCrossProcessWrite)
      // the delegate is gone: reading the state ends the process
      ensures state.None? ==>
                log == old(log) + [ProcessTerminated]
                && grdbAdapter == old(grdbAdapter) && nextGeneration == old(nextGeneration)
      // not GRDB: returns without running the migrator or ever calling completion
      ensures state == Some(NotGrdb) ==>
                log == old(log) && grdbAdapter == old(grdbAdapter) && nextGeneration == old(nextGeneration)
      // no migrations: same adapter, completion still runs once
      ensures state == Some(Grdb) && !didPerformIncrementalMigrations ==>
                grdbAdapter == old(grdbAdapter) && nextGeneration == old(nextGeneration)
                && log == old(log) + [SchemaMigratorRun, MigrationCompletionRun]
      // migrations: the getter is read (creating an adapter if there was none),
      // then a fresh adapter is installed before completion runs
      ensures state == Some(Grdb) && didPerformIncrementalMigrations ==>
                var lazy := LazyCreation(old(grdbAdapter), old(nextGeneration));
                && nextGeneration == old(nextGeneration) + |lazy| + 1
                && grdbAdapter == Some(nextGeneration - 1)
                && log == old(log) + [SchemaMigratorRun] + lazy
                          + [AdapterCreated(nextGeneration - 1), MigrationCompletionRun]
      // the replaced adapter is no longer reachable from the façade
      ensures state == Some(Grdb) && didPerformIncrementalMigrations ==>
                forall g :: old(grdbAdapter) == Some(g) ==> grdbAdapter != Some(g)
    {
      if state.None? {
        Emit([ProcessTerminated]);
        return;
      }
      if state.value != Grdb {
        return;
      }
      Emit([SchemaMigratorRun]);
      if didPerformIncrementalMigrations {
        var replacement := ReplaceAdapter();
        Emit([MigrationCompletionRun]);
      } else {
        Emit([MigrationCompletionRun]);
      }
    }

    /**
     * `reload()`. Registration state is read from a foreign account manager
     * before and after; both readings are parameters.
     */
    method Reload(wasRegistered: bool, isRegistered: bool)
      requires Valid() && Running()
      modifies this
      ensures Valid()
      ensures hasPendingCrossProcessWrite == old(hasPendingCrossProcessWrite)
      ensures nextGeneration == old(nextGeneration) + 1
      ensures grdbAdapter == Some(old(nextGeneration)) && grdbAdapter != old(grdbAdapter)
      ensures log == old(log)
                     + [ AdapterCreated(old(nextGeneration)), SchemaMigratorRun
                       , SnapshotForced(old(nextGeneration)), StorageDidReloadPosted, CachesWarmed ]
                     + (if wasRegistered != isRegistered then [RegistrationStateDidChangePosted] else [])
    {
      var generation := CreateGrdbStorage();
      grdbAdapter := Some(generation);
      var events := [SchemaMigratorRun, SnapshotForced(generation), StorageDidReloadPosted, CachesWarmed];
      if wasRegistered != isRegistered {
        events := events + [RegistrationStateDidChangePosted];
      }
      Emit(events);
    }

    /** `write(file:function:line:block:)`. */
    method Write(file: string, functionName: string, line: int, outcome: AdapterOutcome)
      requires Valid() && Running()
      modifies this
      ensures Valid()
      ensures hasPendingCrossProcessWrite == old(hasPendingCrossProcessWrite)
      ensures grdbAdapter.Some?
      ensures grdbAdapter == (if old(grdbAdapter).Some? then old(grdbAdapter) else Some(old(nextGeneration)))
      ensures nextGeneration == old(nextGeneration) + |LazyCreation(old(grdbAdapter), old(nextGeneration))|
      ensures log == old(log) + LazyCreation(old(grdbAdapter), old(nextGeneration))
                     + WriteEvents("Slow Write Transaction " + OwsFormatLogMessage(file, functionName, line), outcome)
    {
      var benchTitle := "Slow Write Transaction " + OwsFormatLogMessage(file, functionName, line);
      var adapter := GrdbStorage();
      var events := WriteEvents(benchTitle, outcome);
      Emit(events);
    }

    /** `read(block:)` when `ui` is false, `uiRead(block:)` when it is true. */
    method Read(ui: bool, outcome: AdapterOutcome)
      requires Valid() && Running()
      modifies this
      ensures Valid()
      ensures hasPendingCrossProcessWrite == old(hasPendingCrossProcessWrite)
      ensures grdbAdapter.Some?
      ensures grdbAdapter == (if old(grdbAdapter).Some? then old(grdbAdapter) else Some(old(nextGeneration)))
      ensures nextGeneration == old(nextGeneration) + |LazyCreation(old(grdbAdapter), old(nextGeneration))|
      ensures log == old(log) + LazyCreation(old(grdbAdapter), old(nextGeneration)) + ReadEvents(ui, outcome)
    {
      var adapter := GrdbStorage();
      var events := ReadEvents(ui, outcome);
      Emit(events);
    }
  }

  function Iota(n: nat): (r: seq<nat>)
    ensures |r| == n && forall i :: 0 <= i < n ==> r[i] == i
  {
    if n == 0 then [] else Iota(n - 1) + [n - 1]
  }

  // ---------------------------------------------------------------------
  // SDS.fitsInInt64
  // ---------------------------------------------------------------------

  const Int64Max: int := 0x7FFF_FFFF_FFFF_FFFF
  const TwoTo64: int := 0x1_0000_0000_0000_0000

  type UInt64 = x: int | 0 <= x < 0x1_0000_0000_0000_0000
  type Int64 = x: int | -0x8000_0000_0000_0000 <= x < 0x8000_0000_0000_0000

  /** `SDS.fitsInInt64(_: UInt64)` (the instance method forwards to it). */
  function FitsInInt64(value: UInt64): bool {
    value <= Int64Max
  }

  /** `Int64(bitPattern:)`: the two's-complement reading of the same 64 bits. */
  function Int64BitPattern(value: UInt64): Int64 {
    (value + 0x8000_0000_0000_0000) % TwoTo64 - 0x8000_0000_0000_0000
  }

  /** The check holds exactly when reading the bits as an `Int64` keeps the value. */
  lemma FitsInInt64Meaning(value: UInt64)
    ensures FitsInInt64(value) <==> Int64BitPattern(value) == value
    ensures FitsInInt64(value) <==> value < 0x8000_0000_0000_0000
  {
  }

  /** The integer kinds of `NSNumber` this model distinguishes. */
  datatype NSNumber = SignedNumber(signed: Int64) | UnsignedNumber(unsigned: UInt64)

  /** `NSNumber.uint64Value`: a negative signed value wraps modulo 2^64. */
  function UInt64Value(n: NSNumber): UInt64 {
    match n
    case SignedNumber(x) => if x < 0 then x + TwoTo64 else x
    case UnsignedNumber(u) => u
  }

  /** `SDS.fitsInInt64(nsNumber:)`. */
  function FitsInInt64NSNumber(n: NSNumber): bool {
    FitsInInt64(UInt64Value(n))
  }

  /**
   * The NSNumber variant agrees with the UInt64 one on the unsigned form; so
   * a negative signed number does not "fit", since it wraps past `Int64.max`.
   */
  lemma FitsInInt64NSNumberMeaning(n: NSNumber)
    ensures n.UnsignedNumber? ==> (FitsInInt64NSNumber(n) <==> FitsInInt64(n.unsigned))
    ensures n.SignedNumber? ==> (FitsInInt64NSNumber(n) <==> n.signed >= 0)
  {
  }

  // ---------------------------------------------------------------------
  // owsFormatLogMessage
  // ---------------------------------------------------------------------

  /** Drops trailing '/' characters. */
  function StripTrailingSlashes(p: string): (t: string)
    ensures t <= p
    ensures t != [] ==> t[|t| - 1] != '/'
    ensures forall i :: |t| <= i < |p| ==> p[i] == '/'
    decreases |p|
  {
    if p != [] && p[|p| - 1] == '/' then StripTrailingSlashes(p[..|p| - 1]) else p
  }

  /** The longest suffix without a '/'. */
  function AfterLastSlash(t: string): (r: string)
    ensures '/' !in r
    ensures |r| <= |t| && r == t[|t| - |r|..]
    ensures |r| < |t| ==> t[|t| - |r| - 1] == '/'
    decreases |t|
  {
    if t == [] || t[|t| - 1] == '/' then [] else AfterLastSlash(t[..|t| - 1]) + [t[|t| - 1]]
  }

  /**
   * `NSString.lastPathComponent`: the last component after trailing slashes
   * are dropped; a path of slashes only gives "/", the empty path "".
   */
  function LastPathComponent(p: string): (r: string)
    ensures '/' in r ==> r == "/"
    ensures r == [] <==> p == []
    ensures '/' !in p ==> r == p
    // the text after the last slash, once trailing slashes are dropped
    ensures var t := StripTrailingSlashes(p);
            && (t != [] ==> '/' !in r && |r| <= |t| && r == t[|t| - |r|..] && (|r| < |t| ==> t[|t| - |r| - 1] == '/'))
            && (t == [] && p != [] ==> r == "/")
  {
    var t := StripTrailingSlashes(p);
    if t == [] then (if p == [] then [] else "/") else AfterLastSlash(t)
  }

  /** Taking the last component of a last component changes nothing. */
  lemma LastPathComponentIdempotent(p: string)
    ensures LastPathComponent(LastPathComponent(p)) == LastPathComponent(p)
  {
  }

  /** `owsFormatLogMessage(file:function:line:)`: `[<file name>:<line> <function>]`. */
  function OwsFormatLogMessage(file: string, functionName: string, line: int): string {
    "[" + (LastPathComponent(file) + ":" + Decimal.Render(line) + " " + functionName) + "]"
  }

  datatype LogLocation = LogLocation(fileName: string, line: int, functionName: string)

  /** The first position of `c` in `s`. */
  function FirstIndexOf(s: string, c: char): (r: Option<nat>)
    ensures r.Some? ==> r.value < |s| && s[r.value] == c && c !in s[..r.value]
    ensures r.None? ==> c !in s
    decreases |s|
  {
    if s == [] then None
    else if s[0] == c then Some(0)
    else match FirstIndexOf(s[1..], c)
      case None => None
      case Some(i) => Some(i + 1)
  }

  lemma FirstIndexOfAfter(a: string, c: char, b: string)
    requires c !in a
    ensures FirstIndexOf(a + [c] + b, c) == Some(|a|)
  {
    assert (a + [c] + b)[|a|] == c;
  }

  /** Reads `<line> <function>` back. */
  function ParseLineAndFunction(rest: string): Option<(int, string)> {
    match FirstIndexOf(rest, ' ')
    case None => None
    case Some(space) =>
      match Decimal.Parse(rest[..space])
      case None => None
      case Some(line) => Some((line, rest[space + 1..]))
  }

  /** Reads `<file name>:<line> <function>` back, splitting at the first ':'. */
  function ParseLocation(inner: string): Option<LogLocation> {
    match FirstIndexOf(inner, ':')
    case None => None
    case Some(colon) =>
      match ParseLineAndFunction(inner[colon + 1..])
      case None => None
      case Some((line, functionName)) => Some(LogLocation(inner[..colon], line, functionName))
  }

  /** Reads a message back into file name, line and function. */
  function ParseLogMessage(message: string): Option<LogLocation> {
    if |message| < 2 || message[0] != '[' || message[|message| - 1] != ']' then None
    else ParseLocation(message[1..|message| - 1])
  }

  lemma LineAndFunctionRoundTrip(line: int, functionName: string)
    ensures ParseLineAndFunction(Decimal.Render(line) + " " + functionName) == Some((line, functionName))
  {
    var digits := Decimal.Render(line);
    var rest := digits + " " + functionName;
    assert rest == digits + [' '] + functionName;
    FirstIndexOfAfter(digits, ' ', functionName);
    assert rest[..|digits|] == digits;
    assert rest[|digits| + 1..] == functionName;
    Decimal.RenderRoundTrip(line);
  }

  lemma LocationRoundTrip(name: string, line: int, functionName: string)
    requires ':' !in name
    ensures ParseLocation(name + ":" + Decimal.Render(line) + " " + functionName)
            == Some(LogLocation(name, line, functionName))
  {
    var tail := Decimal.Render(line) + " " + functionName;
    var inner := name + ":" + Decimal.Render(line) + " " + functionName;
    assert inner == name + [':'] + tail;
    FirstIndexOfAfter(name, ':', tail);
    assert inner[..|name|] == name;
    assert inner[|name| + 1..] == tail;
    LineAndFunctionRoundTrip(line, functionName);
  }

  lemma BracketedRoundTrip(inner: string)
    ensures ParseLogMessage("[" + inner + "]") == ParseLocation(inner)
  {
  }

  /**
   * The message loses nothing: when the file name has no ':' in it, the
   * name, the line and the (arbitrary) function name can be read back.
   */
  lemma LogMessageRoundTrip(file: string, functionName: string, line: int)
    requires ':' !in LastPathComponent(file)
    ensures ParseLogMessage(OwsFormatLogMessage(file, functionName, line))
            == Some(LogLocation(LastPathComponent(file), line, functionName))
  {
    var name := LastPathComponent(file);
    BracketedRoundTrip(name + ":" + Decimal.Render(line) + " " + functionName);
    LocationRoundTrip(name, line, functionName);
  }
}
