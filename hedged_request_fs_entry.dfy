/** The shared registry of src/include/hedged_request_fs_entry.hpp and
    src/hedged_request_fs_entry.cpp: the attempts that lost a race and are still
    running, and the hedging configuration. One mutex guards both, so each public
    method is one atomic step here. */
module FsEntry {
  import opened Common
  import opened Sequences
  import opened RequestConfig

  /** A registered losing attempt, seen only through its readiness. `done` becomes
      true when the attempt finishes, in the background or by being waited on. */
  class PendingRequest {
    var done: bool

    constructor (done: bool)
      ensures this.done == done
    {
      this.done := done;
    }

    /** The non-blocking probe the cleanup filters on. */
    function IsReady(): (r: bool)
      reads this
      ensures r <==> done
    {
      done
    }

    /** Block until the attempt has finished. A background finish has the same effect. */
    method Wait()
      modifies this
      ensures IsReady()
    {
      done := true;
    }
  }

  /** Readiness of each handle, position by position. */
  ghost function ReadyFlags(ps: seq<PendingRequest>): (m: seq<bool>)
    reads ps
    ensures |m| == |ps|
    ensures forall i :: 0 <= i < |ps| ==> m[i] == ps[i].done
  {
    if ps == [] then [] else [ps[0].done] + ReadyFlags(ps[1..])
  }

  /** What `erase(remove_if(..., IsReady))` leaves: the handles not yet ready, in order. */
  ghost function Unfinished(ps: seq<PendingRequest>): seq<PendingRequest>
    reads ps
  {
    Select(ps, ReadyFlags(ps), false)
  }

  /** A handle survives the cleanup exactly when it is in the list and not ready. */
  lemma UnfinishedMembership(ps: seq<PendingRequest>, p: PendingRequest)
    ensures p in Unfinished(ps) <==> p in ps && !p.done
  {
    SelectMembership(ps, ReadyFlags(ps), false, p);
  }

  /** After the cleanup no ready handle remains. */
  lemma UnfinishedNoneReady(ps: seq<PendingRequest>)
    ensures forall p :: p in Unfinished(ps) ==> !p.done
  {
    forall p | p in Unfinished(ps) ensures !p.done {
      UnfinishedMembership(ps, p);
    }
  }

  /** The cleanup drops ready handles and nothing else: survivors and dropped handles
      together are the input, and the survivors keep their relative order. */
  lemma UnfinishedPartitions(ps: seq<PendingRequest>)
    ensures multiset(Unfinished(ps)) + multiset(Select(ps, ReadyFlags(ps), true)) == multiset(ps)
    ensures forall p :: p in Select(ps, ReadyFlags(ps), true) ==> p.done
    ensures Interleaving(ps, Unfinished(ps), Select(ps, ReadyFlags(ps), true))
  {
    SelectPartitions(ps, ReadyFlags(ps));
    SelectInterleaves(ps, ReadyFlags(ps));
    forall p | p in Select(ps, ReadyFlags(ps), true) ensures p.done {
      SelectMembership(ps, ReadyFlags(ps), true, p);
    }
  }

  /** Appending a handle and cleaning up is cleaning up the old list, then keeping the
      new handle iff it is not ready. */
  lemma UnfinishedAppend(ps: seq<PendingRequest>, h: PendingRequest)
    ensures Unfinished(ps + [h]) == Unfinished(ps) + (if h.done then [] else [h])
  {
    assert ReadyFlags(ps + [h]) == ReadyFlags(ps) + [h.done];
    SelectAppend(ps, [h], ReadyFlags(ps), [h.done], false);
    assert Select([h], [h.done], false) == (if h.done then [] else [h]) + Select([h][1..], [h.done][1..], false);
  }

  /** Cleaning up twice is cleaning up once. */
  lemma UnfinishedIdempotent(ps: seq<PendingRequest>)
    ensures Unfinished(Unfinished(ps)) == Unfinished(ps)
  {
    UnfinishedNoneReady(ps);
    SelectKeepsAll(Unfinished(ps), ReadyFlags(Unfinished(ps)), false);
  }

  class HedgedRequestFsEntry {
    var pending_requests: seq<PendingRequest>
    var config: HedgedRequestConfig

    ghost predicate Valid()
      reads this
    {
      config.Valid()
    }

    /** A new entry: no pending requests, the default delays. */
    constructor ()
      ensures Valid() && pending_requests == []
      ensures forall op :: config.Delay(op) == DefaultDelay(op)
    {
      var defaults := NewHedgedRequestConfig();
      pending_requests := [];
      config := defaults;
    }

    /** The name the entry is stored under in the object cache. */
    static function ObjectType(): (r: string)
      ensures |r| > 0
    {
      "hedged_request_fs_entry"
    }

    /** The cache's virtual type query answers with the same name as `ObjectType`. */
    function GetObjectType(): (r: string)
      ensures r == ObjectType() && r == "hedged_request_fs_entry"
    {
      "hedged_request_fs_entry"
    }

    /** Drop every handle that is ready; keep the others in order. */
    method CleanupCompleted()
      modifies this
      ensures pending_requests == Unfinished(old(pending_requests))
      ensures config == old(config)
    {
      var handles := pending_requests;
      ghost var flags := ReadyFlags(handles);
      var kept: seq<PendingRequest> := [];
      for k := 0 to |handles|
        invariant kept == Select(handles[..k], flags[..k], false)
        invariant config == old(config)
      {
        SelectExtend(handles, flags, false, k);
        if !handles[k].IsReady() {
          kept := kept + [handles[k]];
        }
      }
      assert handles[..|handles|] == handles;
      assert flags[..|flags|] == flags;
      pending_requests := kept;
    }

    /** Register a losing attempt, then clean up: the new handle stays iff it is not
        ready, no ready handle stays, and the list grows by at most one. */
    method AddPendingRequest(future: PendingRequest)
      modifies this
      ensures pending_requests == Unfinished(old(pending_requests)) + (if future.done then [] else [future])
      ensures future in pending_requests <==> !future.done
      ensures forall p :: p in pending_requests ==> !p.done
      ensures |pending_requests| <= |old(pending_requests)| + 1
      ensures config == old(config)
    {
      ghost var before := pending_requests;
      pending_requests := pending_requests + [future];
      CleanupCompleted();
      UnfinishedAppend(before, future);
      UnfinishedNoneReady(before + [future]);
      UnfinishedMembership(before + [future], future);
      SelectPartitions(before, ReadyFlags(before));
    }

    /** Wait for every pending attempt, then forget them all. */
    method WaitAll()
      modifies this, pending_requests
      ensures pending_requests == []
      ensures forall p :: p in old(pending_requests) ==> p.done
      ensures config == old(config)
    {
      var handles := pending_requests;
      for k := 0 to |handles|
        invariant forall i :: 0 <= i < k ==> handles[i].done
        invariant pending_requests == handles && config == old(config)
      {
        handles[k].Wait();
      }
      pending_requests := [];
    }

    /** The destructor: drains the registry through `WaitAll`. */
    method Destroy()
      modifies this, pending_requests
      ensures pending_requests == []
      ensures forall p :: p in old(pending_requests) ==> p.done
    {
      WaitAll();
    }

    /** A snapshot of the configuration, returned by value. */
    method GetConfig() returns (c: HedgedRequestConfig)
      ensures c == config
    {
      c := config;
    }

    /** Replace the whole configuration; the pending list is untouched. */
    method SetConfig(c: HedgedRequestConfig)
      requires c.Valid()
      modifies this
      ensures Valid()
      ensures config == c && pending_requests == old(pending_requests)
    {
      config := c;
    }

    /** Replace one operation's delay; every other delay and the pending list are kept. */
    method UpdateConfig(op: HedgedRequestOperation, delay_ms: int64)
      requires Valid()
      modifies this
      ensures Valid()
      ensures config == UpdateDelay(old(config), op, delay_ms)
      ensures config.Delay(op) == delay_ms
      ensures forall other :: other != op ==> config.Delay(other) == old(config).Delay(other)
      ensures pending_requests == old(pending_requests)
    {
      config := UpdateDelay(config, op, delay_ms);
    }
  }

  /** A snapshot taken by `GetConfig` does not follow later updates of the entry. */
  method ConfigSnapshotIsIsolated(entry: HedgedRequestFsEntry, op: HedgedRequestOperation, delay_ms: int64)
    returns (snapshot: HedgedRequestConfig)
    requires entry.Valid()
    modifies entry
    ensures snapshot == old(entry.config)
    ensures entry.Valid() && entry.config.Delay(op) == delay_ms
  {
    snapshot := entry.GetConfig();
    entry.UpdateConfig(op, delay_ms);
  }
}
