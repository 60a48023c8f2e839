/** The race rule and the filesystem wrapper of src/hedged_file_system.cpp.

    Time is a timing oracle. A call's primary attempt takes `primaryLatency`
    milliseconds; if it has not finished when the bounded wait of `timeout` ends, one
    hedge attempt is started at that moment and takes `hedgeLatency`. An attempt is
    ready at an instant exactly when its finish time is at or before that instant.
    The race is decided when the first attempt finishes. */
module HedgedFs {
  import opened Common
  import opened Sequences
  import opened FutureUtils
  import opened FsEntry

  datatype Timing = Timing(timeout: nat, primaryLatency: nat, hedgeLatency: nat)
  {
    /** The bounded wait sees the primary finish. */
    predicate PrimaryWithinTimeout()
    {
      primaryLatency <= timeout
    }

    function PrimaryFinish(): nat
    {
      primaryLatency
    }

    /** The hedge starts when the bounded wait gives up. */
    function HedgeFinish(): nat
    {
      timeout + hedgeLatency
    }

    /** The instant `WaitForAny` returns: the first finish of the two attempts. */
    function DecidedAt(): (d: nat)
      requires !PrimaryWithinTimeout()
      ensures d == PrimaryFinish() || d == HedgeFinish()
      ensures d <= PrimaryFinish() && d <= HedgeFinish()
      ensures d >= timeout
    {
      if PrimaryFinish() <= HedgeFinish() then PrimaryFinish() else HedgeFinish()
    }

    /** Which of the two attempts has finished when the race is decided. */
    function ReadyAtDecision(): (flags: seq<bool>)
      requires !PrimaryWithinTimeout()
      ensures |flags| == 2
      ensures flags[0] <==> PrimaryFinish() <= HedgeFinish()
      ensures flags[1] <==> HedgeFinish() <= PrimaryFinish()
      ensures flags[0] || flags[1]
    {
      [PrimaryFinish() <= DecidedAt(), HedgeFinish() <= DecidedAt()]
    }

    /** How many times the wrapped operation is started. */
    function IssuedCount(): (n: nat)
      ensures 1 <= n <= 2
      ensures n == 1 <==> PrimaryWithinTimeout()
    {
      if PrimaryWithinTimeout() then 1 else 2
    }

    /** The primary's outcome is returned: it finished within the timeout, or first, or
        together with the hedge (the ready part keeps the primary in front). */
    predicate PrimaryWins()
    {
      PrimaryWithinTimeout() || PrimaryFinish() <= HedgeFinish()
    }

    /** How many attempts are still running when the race returns. */
    function LoserCount(): (n: nat)
      ensures n <= IssuedCount() - 1
      ensures n == 1 <==> !PrimaryWithinTimeout() && PrimaryFinish() != HedgeFinish()
    {
      if PrimaryWithinTimeout() || PrimaryFinish() == HedgeFinish() then 0 else 1
    }
  }

  /** What the race returns: the outcome of the winning attempt. */
  function RaceOutcome<T>(primary: Outcome<T>, hedge: Outcome<T>, timing: Timing): Outcome<T>
  {
    if timing.PrimaryWins() then primary else hedge
  }

  /** The winner is an attempt that has finished when the race returns, and no issued
      attempt finishes before it. */
  lemma WinnerFinishesFirst(timing: Timing)
    ensures timing.PrimaryWins() ==>
              timing.PrimaryWithinTimeout() || timing.PrimaryFinish() == timing.DecidedAt()
    ensures !timing.PrimaryWins() ==>
              timing.HedgeFinish() == timing.DecidedAt() && timing.HedgeFinish() < timing.PrimaryFinish()
    ensures timing.PrimaryWithinTimeout() ==> timing.PrimaryFinish() <= timing.timeout
  {
  }

  /** Every issued attempt is the winner, a ready loser (a tie), or handed to the entry. */
  lemma AttemptsAccounted(timing: Timing)
    ensures timing.IssuedCount()
         == 1 + timing.LoserCount()
              + (if !timing.PrimaryWithinTimeout() && timing.PrimaryFinish() == timing.HedgeFinish() then 1 else 0)
  {
  }

  /** The race rule. The primary is started, and the call waits up to `timeout` for a
      completion, then clears the token. A ready primary's outcome is returned and
      nothing else is started. Otherwise exactly one hedge is started, the call waits
      for either attempt, returns the first ready attempt's outcome, and registers each
      attempt still running with `entry`. `issued` counts the started attempts;
      `handedOver` are the registered handles. */
  method HedgedRequest<T>(primaryOutcome: Outcome<T>, hedgeOutcome: Outcome<T>, timing: Timing,
                          entry: HedgedRequestFsEntry)
    returns (r: Outcome<T>, issued: nat, handedOver: seq<PendingRequest>)
    modifies entry
    ensures r == RaceOutcome(primaryOutcome, hedgeOutcome, timing)
    ensures issued == timing.IssuedCount()
    ensures |handedOver| == timing.LoserCount()
    ensures forall h :: h in handedOver ==> fresh(h) && !h.done
    ensures handedOver == [] ==> entry.pending_requests == old(entry.pending_requests)
    ensures handedOver != [] ==> entry.pending_requests == old(Unfinished(entry.pending_requests)) + handedOver
    ensures entry.config == old(entry.config)
  {
    var token := new Token();
    var primary := new FutureWrapper.Create(primaryOutcome, token);
    issued := 1;
    handedOver := [];

    // the bounded wait: the primary finishes within it or it times out
    if timing.PrimaryWithinTimeout() {
      primary.FinishWorker();
    }
    token.Reset();
    if primary.IsReady() {
      r := primary.Get();
      return;
    }

    issued := 2;
    var unready;
    r, unready := RaceWithHedge(primary, primaryOutcome, hedgeOutcome, token, timing);
    handedOver := HandOverPending(unready, entry);
  }

  /** The hedged part of the race: start one hedge, wait for either attempt, and
      return the first ready attempt's outcome and the attempts still running. */
  method RaceWithHedge<T>(primary: FutureWrapper<T>, primaryOutcome: Outcome<T>, hedgeOutcome: Outcome<T>,
                          token: Token, timing: Timing)
    returns (r: Outcome<T>, unready: seq<FutureWrapper<T>>)
    requires !timing.PrimaryWithinTimeout()
    requires primary.Valid() && primary.token == token && primary.worker == Some(primaryOutcome)
    requires !primary.IsReady() && !token.completed
    modifies primary, primary.state, token
    ensures r == RaceOutcome(primaryOutcome, hedgeOutcome, timing)
    ensures |unready| == timing.LoserCount()
  {
    var futs := StartHedge(primary, primaryOutcome, hedgeOutcome, token);
    var finishing := timing.ReadyAtDecision();
    var remaining;
    unready, remaining := WaitForAny(futs, token, finishing);
    assert ReadyMask(futs) == finishing;
    SelectPair(futs[0], futs[1], finishing[0], finishing[1], false);
    SelectPair(futs[0], futs[1], finishing[0], finishing[1], true);
    r := remaining[0].Get();
  }

  /** Start the hedge on the primary's token and move both attempts into the vector
      the wait takes: the primary first, then the hedge, neither finished yet. */
  method StartHedge<T>(primary: FutureWrapper<T>, primaryOutcome: Outcome<T>, hedgeOutcome: Outcome<T>, token: Token)
    returns (futs: seq<FutureWrapper<T>>)
    requires primary.Valid() && primary.token == token && primary.worker == Some(primaryOutcome)
    requires !primary.IsReady()
    modifies primary
    ensures |futs| == 2 && RaceAttempts(futs, token)
    ensures fresh(futs[0]) && fresh(futs[1])
    ensures futs[0].state == old(primary.state) && fresh(futs[1].state)
    ensures futs[0].worker == Some(primaryOutcome) && futs[1].worker == Some(hedgeOutcome)
    ensures !futs[0].IsReady() && !futs[1].IsReady()
  {
    var hedged := new FutureWrapper.Create(hedgeOutcome, token);
    var first := new FutureWrapper.Move(primary);
    var second := new FutureWrapper.Move(hedged);
    futs := [first, second];
  }

  /** Each attempt still running is registered with the entry, once, in order. */
  method HandOverPending<T>(unready: seq<FutureWrapper<T>>, entry: HedgedRequestFsEntry)
    returns (handedOver: seq<PendingRequest>)
    modifies entry
    ensures |handedOver| == |unready|
    ensures forall h :: h in handedOver ==> fresh(h) && !h.done
    ensures handedOver == [] ==> entry.pending_requests == old(entry.pending_requests)
    ensures handedOver != [] ==> entry.pending_requests == old(Unfinished(entry.pending_requests)) + handedOver
    ensures entry.config == old(entry.config)
  {
    ghost var cleaned := Unfinished(entry.pending_requests);
    UnfinishedNoneReady(entry.pending_requests);
    handedOver := [];
    for k := 0 to |unready|
      invariant |handedOver| == k
      invariant forall h :: h in handedOver ==> fresh(h)
      invariant k == 0 ==> entry.pending_requests == old(entry.pending_requests)
      invariant k == 0 ==> Unfinished(entry.pending_requests) == cleaned
      invariant k > 0 ==> entry.pending_requests == cleaned + handedOver
      invariant k > 0 ==> forall p :: p in entry.pending_requests ==> !p.done
      invariant entry.config == old(entry.config)
    {
      var pending := HandOverOne(entry, cleaned + handedOver, k == 0);
      handedOver := handedOver + [pending];
    }
  }

  /** One step of `HandOverPending`: register a fresh, still running handle. On the
      first step the cleanup leaves the unfinished handles `kept`; later the list holds
      only unfinished handles, so it stays `kept`. The new handle follows. */
  method HandOverOne(entry: HedgedRequestFsEntry, ghost kept: seq<PendingRequest>, ghost first: bool)
    returns (pending: PendingRequest)
    requires first ==> Unfinished(entry.pending_requests) == kept
    requires !first ==> entry.pending_requests == kept && forall p :: p in kept ==> !p.done
    modifies entry
    ensures fresh(pending) && !pending.done
    ensures entry.pending_requests == kept + [pending]
    ensures forall p :: p in entry.pending_requests ==> !p.done
    ensures entry.config == old(entry.config)
  {
    if !first {
      AllUnfinishedKept(entry.pending_requests);
    }
    pending := new PendingRequest(false);
    entry.AddPendingRequest(pending);
  }

  /** A list with no ready handle is left as it is by the cleanup. */
  lemma AllUnfinishedKept(ps: seq<PendingRequest>)
    requires forall p :: p in ps ==> !p.done
    ensures Unfinished(ps) == ps
  {
    SelectKeepsAll(ps, ReadyFlags(ps), false);
  }

  /** A 1000 ms timeout and an operation that takes 5000 ms on every attempt: both
      attempts are started, the primary wins, and the hedge is left with the entry. */
  method SlowOpenScenario() returns (r: Outcome<bool>, issued: nat, pending: nat)
    ensures r == Returned(true) && issued == 2 && pending == 1
  {
    var entry := new HedgedRequestFsEntry();
    var handedOver;
    r, issued, handedOver := HedgedRequest(Returned(true), Returned(false), Timing(1000, 5000, 5000), entry);
    pending := |entry.pending_requests|;
  }

  /** A 1000 ms timeout and an operation that answers at once: one attempt only, and
      nothing is left with the entry. */
  method FastOpenScenario() returns (r: Outcome<bool>, issued: nat, pending: nat)
    ensures r == Returned(true) && issued == 1 && pending == 0
  {
    var entry := new HedgedRequestFsEntry();
    var handedOver;
    r, issued, handedOver := HedgedRequest(Returned(true), Returned(false), Timing(1000, 0, 0), entry);
    pending := |entry.pending_requests|;
  }

  // ---------------------------------------------------------------------------
  // The filesystem wrapper

  /** The wrapped filesystem, seen through its name. */
  datatype FileSystemRef = FileSystemRef(name: string)

  const NAME_PREFIX: string := "HedgedFileSystem - "

  /** The name a hedged wrapper reports for a wrapped filesystem called `inner`. */
  function HedgedName(inner: string): (r: string)
    ensures |r| == |NAME_PREFIX| + |inner|
  {
    NAME_PREFIX + inner
  }

  /** The wrapper's name is the fixed prefix followed by the wrapped name, so the
      wrapped name can be read back from it. */
  lemma HedgedNameSplits(inner: string)
    ensures HedgedName(inner)[..|NAME_PREFIX|] == NAME_PREFIX
    ensures HedgedName(inner)[|NAME_PREFIX|..] == inner
  {
    assert HedgedName(inner) == NAME_PREFIX + inner;
  }

  /** Different wrapped filesystems give differently named wrappers. */
  lemma HedgedNameInjective(a: string, b: string)
    requires HedgedName(a) == HedgedName(b)
    ensures a == b
  {
    HedgedNameSplits(a);
    HedgedNameSplits(b);
  }

  /** The constructor's checks, in order: a missing wrapped filesystem is reported
      before a missing entry, and both are internal errors. */
  function ConstructionError(hasWrapped: bool, hasEntry: bool): (e: Option<Exception>)
    ensures e.None? <==> hasWrapped && hasEntry
    ensures !hasWrapped ==> e == Some(InternalException("HedgedFileSystem: wrapped_fs cannot be null"))
    ensures hasWrapped && !hasEntry ==> e == Some(InternalException("HedgedFileSystem: entry cannot be null"))
  {
    if !hasWrapped then Some(InternalException("HedgedFileSystem: wrapped_fs cannot be null"))
    else if !hasEntry then Some(InternalException("HedgedFileSystem: entry cannot be null"))
    else None
  }

  /** One entry a directory listing reports. */
  datatype ListEntry = ListEntry(name: string, is_dir: bool)

  /** One run of the wrapped `ListFiles`: the entries it reports through its callback,
      and what it then returns or throws. */
  datatype ListingRun = ListingRun(entries: seq<ListEntry>, outcome: Outcome<bool>)

  /** What the shared `results` vector can hold when the race returns. Every attempt
      appends to it. A finished attempt has appended all its entries, one still running
      some prefix of them, and appends of two attempts interleave. */
  ghost predicate SharedResultsAt(timing: Timing, primary: ListingRun, hedge: ListingRun, results: seq<ListEntry>)
  {
    if timing.PrimaryWithinTimeout() then results == primary.entries
    else if timing.PrimaryFinish() == timing.HedgeFinish() then Interleaving(results, primary.entries, hedge.entries)
    else if timing.PrimaryWins() then
      exists n :: 0 <= n <= |hedge.entries| && Interleaving(results, primary.entries, hedge.entries[..n])
    else
      exists n :: 0 <= n <= |primary.entries| && Interleaving(results, hedge.entries, primary.entries[..n])
  }

  /** The listing `ListFiles` should forward: the winning run's entries, or nothing when
      the winning run threw. */
  function WinnerListing(timing: Timing, primary: ListingRun, hedge: ListingRun): (r: seq<ListEntry>)
    ensures RaceOutcome(primary.outcome, hedge.outcome, timing).Threw? ==> r == []
    ensures RaceOutcome(primary.outcome, hedge.outcome, timing).Returned? ==>
              r == primary.entries || r == hedge.entries
  {
    var winner := if timing.PrimaryWins() then primary else hedge;
    if winner.outcome.Returned? then winner.entries else []
  }

  /** When both attempts finish together and list the same directory alike, the shared
      vector holds every entry twice. */
  lemma {:induction false} SharedResultsTieDuplicates(timing: Timing, run: ListingRun, results: seq<ListEntry>)
    requires !timing.PrimaryWithinTimeout() && timing.PrimaryFinish() == timing.HedgeFinish()
    requires SharedResultsAt(timing, run, run, results)
    ensures multiset(results) == multiset(run.entries) + multiset(run.entries)
    ensures |results| == 2 * |run.entries|
  {
    InterleavingMultiset(results, run.entries, run.entries);
    assert |multiset(results)| == |multiset(run.entries) + multiset(run.entries)|;
  }

  /** A concrete case: a 1000 ms timeout, a primary taking 2000 ms and a hedge taking
      1000 ms finish together, and a directory holding one file is forwarded as two. */
  lemma SharedResultsCounterexample(results: seq<ListEntry>)
    requires SharedResultsAt(Timing(1000, 2000, 1000), ListingRun([ListEntry("a", false)], Returned(true)),
                             ListingRun([ListEntry("a", false)], Returned(true)), results)
    ensures results == [ListEntry("a", false), ListEntry("a", false)]
    ensures results != WinnerListing(Timing(1000, 2000, 1000), ListingRun([ListEntry("a", false)], Returned(true)),
                                     ListingRun([ListEntry("a", false)], Returned(true)))
  {
    var e := ListEntry("a", false);
    SharedResultsTieDuplicates(Timing(1000, 2000, 1000), ListingRun([e], Returned(true)), results);
    assert |results| == 2;
    assert results[0] in multiset(results) && results[1] in multiset(results);
  }

  /** Without a hedge the shared vector holds exactly the winner's listing, so the
      two forms of `ListFiles` agree when the primary answers within the timeout. */
  lemma SharedResultsAgreeWithoutHedge(timing: Timing, primary: ListingRun, hedge: ListingRun, results: seq<ListEntry>)
    requires timing.PrimaryWithinTimeout() && primary.outcome.Returned?
    requires SharedResultsAt(timing, primary, hedge, results)
    ensures results == WinnerListing(timing, primary, hedge)
  {
  }

  /** What one attempt of the corrected `ListFiles` yields: its own listing with the
      bool the wrapped call returned, or the exception it threw. */
  function Collected(run: ListingRun): (o: Outcome<(bool, seq<ListEntry>)>)
    ensures o.Returned? <==> run.outcome.Returned?
    ensures o.Returned? ==> o.value == (run.outcome.value, run.entries)
    ensures o.Threw? ==> o.error == run.outcome.error
  {
    match run.outcome
    case Returned(ok) => Returned((ok, run.entries))
    case Threw(e) => Threw(e)
  }

  class HedgedFileSystem {
    const wrapped_fs: FileSystemRef
    const timeout: nat
    const entry: HedgedRequestFsEntry

    constructor (wrapped_fs: FileSystemRef, timeout: nat, entry: HedgedRequestFsEntry)
      ensures this.wrapped_fs == wrapped_fs && this.timeout == timeout && this.entry == entry
    {
      this.wrapped_fs := wrapped_fs;
      this.timeout := timeout;
      this.entry := entry;
    }

    /** `"HedgedFileSystem - "` followed by the wrapped filesystem's name. */
    function GetName(): (r: string)
      ensures |r| >= |NAME_PREFIX| && r[..|NAME_PREFIX|] == NAME_PREFIX
      ensures r[|NAME_PREFIX|..] == wrapped_fs.name
    {
      HedgedNameSplits(wrapped_fs.name);
      HedgedName(wrapped_fs.name)
    }

    /** `ListFiles` as written: both attempts append to one shared vector, and after the
        race every entry in it is passed to the caller's callback, in order. `results`
        is the timing oracle's account of that vector when the race returns. A thrown
        exception propagates before any callback. */
    method ListFilesSharedResults(primary: ListingRun, hedge: ListingRun, primaryLatency: nat, hedgeLatency: nat,
                                  results: seq<ListEntry>)
      returns (r: Outcome<bool>, forwarded: seq<ListEntry>)
      requires SharedResultsAt(Timing(timeout, primaryLatency, hedgeLatency), primary, hedge, results)
      modifies entry
      ensures r == RaceOutcome(primary.outcome, hedge.outcome, Timing(timeout, primaryLatency, hedgeLatency))
      ensures forwarded == if r.Returned? then results else []
    {
      var issued, handedOver;
      r, issued, handedOver := HedgedRequest(primary.outcome, hedge.outcome, Timing(timeout, primaryLatency, hedgeLatency), entry);
      forwarded := [];
      if r.Threw? {
        return;
      }
      for k := 0 to |results|
        invariant forwarded == results[..k]
      {
        forwarded := forwarded + [results[k]];
      }
    }

    /** `ListFiles` corrected: each attempt collects into its own vector and returns it
        with its bool, and only the winner's listing reaches the callback. */
    method ListFiles(primary: ListingRun, hedge: ListingRun, primaryLatency: nat, hedgeLatency: nat)
      returns (r: Outcome<bool>, forwarded: seq<ListEntry>)
      modifies entry
      ensures r == RaceOutcome(primary.outcome, hedge.outcome, Timing(timeout, primaryLatency, hedgeLatency))
      ensures forwarded == WinnerListing(Timing(timeout, primaryLatency, hedgeLatency), primary, hedge)
    {
      var timing := Timing(timeout, primaryLatency, hedgeLatency);
      var raced, issued, handedOver := HedgedRequest(Collected(primary), Collected(hedge), timing, entry);
      forwarded := [];
      match raced
      case Threw(e) =>
        r := Threw(e);
      case Returned(v) =>
        var (ok, listing) := v;
        for k := 0 to |listing|
          invariant forwarded == listing[..k]
        {
          forwarded := forwarded + [listing[k]];
        }
        r := Returned(ok);
    }
  }

  /** The constructor with its checks: a missing wrapped filesystem or entry is an
      internal error, otherwise a wrapper over them with the given timeout. */
  method NewHedgedFileSystem(wrapped_fs: Option<FileSystemRef>, timeout: nat, entry: HedgedRequestFsEntry?)
    returns (r: Result<HedgedFileSystem, Exception>)
    ensures r.Failure? <==> wrapped_fs.None? || entry == null
    ensures r.Failure? ==> ConstructionError(wrapped_fs.Some?, entry != null) == Some(r.error)
    ensures r.Success? ==> r.value.wrapped_fs == wrapped_fs.value && r.value.timeout == timeout && r.value.entry == entry
  {
    var err := ConstructionError(wrapped_fs.Some?, entry != null);
    if err.Some? {
      return Failure(err.value);
    }
    var fs := new HedgedFileSystem(wrapped_fs.value, timeout, entry);
    r := Success(fs);
  }
}
