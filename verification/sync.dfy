/** `run`: search once, optionally cut the list to `limit` (scraper.py),
    then process the candidates one by one, re-writing the JSON snapshot
    and re-upserting the whole list processed so far after every item. */
module Sync {
  import opened Wrappers
  import opened Records
  import opened Assembly
  import opened Store

  /** What the run leaves behind: the contents of `bots_data.json`
      (`None` while the file was never written) and the collection (`None`
      when no collection is configured). */
  datatype Persisted = Persisted(snapshot: Option<seq<BotRecord>>, collection: Option<Documents>)

  /** How the outside world behaves during a run: whether the JSON file can
      be written after item `i`, and for the save after item `i`, the index
      of the `update_one` call that raises, if any. */
  datatype Environment = Environment(writable: nat -> bool, dbFault: nat -> Option<nat>)

  /** The last of the first `n` items after which the JSON file could be
      written, if any. */
  function LastWritable(writable: nat -> bool, n: nat): (k: Option<nat>)
    ensures k.Some? ==> k.value < n && writable(k.value)
    ensures k.Some? ==> forall j :: k.value < j < n ==> !writable(j)
    ensures k.None? ==> forall j :: 0 <= j < n ==> !writable(j)
    decreases n
  {
    if n == 0 then None
    else if writable(n - 1) then Some(n - 1)
    else LastWritable(writable, n - 1)
  }

  /** What the JSON file should hold once the items that produced `results`
      are done: the list as it stood after the last item whose write
      succeeded, or the file as it was before the run. */
  function FileContents(env: Environment, results: seq<BotRecord>, initial: Persisted): Option<seq<BotRecord>> {
    match LastWritable(env.writable, |results|)
    case None => initial.snapshot
    case Some(k) => Some(results[..k + 1])
  }

  /** The list handed to `save_to_mongodb` after one item, and the state
      that is durable once that item is done. */
  datatype Checkpoint = Checkpoint(saved: seq<BotRecord>, state: Persisted)

  /** Python's `s[:n]`: a negative `n` counts from the end. */
  function SlicePrefix<T>(s: seq<T>, n: int): (r: seq<T>)
    ensures r <= s
    ensures 0 <= n ==> |r| == if n < |s| then n else |s|
    ensures n < 0 ==> |r| == if |s| + n < 0 then 0 else |s| + n
  {
    var stop := if n < 0 then |s| + n else n;
    if stop < 0 then [] else if stop < |s| then s[..stop] else s
  }

  /** `if limit: bots = bots[:limit]`: `None` and `0` keep every candidate. */
  function ApplyLimit(bots: seq<Repo>, limit: Option<int>): (r: seq<Repo>)
    ensures r <= bots
    ensures limit.None? || limit.value == 0 ==> r == bots
    ensures limit.Some? && limit.value > 0 ==> |r| == if limit.value < |bots| then limit.value else |bots|
    ensures limit.Some? && limit.value < 0 ==> |r| == if |bots| + limit.value < 0 then 0 else |bots| + limit.value
  {
    if limit.Some? && limit.value != 0 then SlicePrefix(bots, limit.value) else bots
  }

  lemma KeysOfPrefix(data: seq<BotRecord>, n: nat)
    requires n <= |data|
    ensures KeysOf(data[..n]) <= KeysOf(data)
  {
  }

  lemma AgreeOutsideChain(a: Documents, b: Documents, c: Documents, k1: set<string>, k2: set<string>, keys: set<string>)
    requires AgreeOutside(a, b, k1) && AgreeOutside(b, c, k2)
    requires k1 <= keys && k2 <= keys
    ensures AgreeOutside(a, c, keys)
  {
  }

  /** One re-save after a successful or partial earlier one: the store still
      agrees with the initial one outside the processed keys, and a save
      that completes holds exactly the initial store upserted with the list. */
  lemma SaveStep(docs: Documents, initial: Documents, previous: seq<BotRecord>, results: seq<BotRecord>, fault: Option<nat>)
    requires |results| == |previous| + 1 && results[..|previous|] == previous
    requires AgreeOutside(docs, initial, KeysOf(previous))
    ensures AgreeOutside(UpsertAll(docs, results[..Reached(fault, |results|)]), initial, KeysOf(results))
    ensures fault.None? ==> UpsertAll(docs, results[..Reached(fault, |results|)]) == UpsertAll(initial, results)
  {
    var n := Reached(fault, |results|);
    KeysOfPrefix(results, n);
    KeysOfPrefix(results, |previous|);
    UpsertTouchesOnlyItsKeys(docs, results[..n]);
    AgreeOutsideChain(UpsertAll(docs, results[..n]), docs, initial,
                      KeysOf(results[..n]), KeysOf(previous), KeysOf(results));
    if fault.None? {
      assert results[..n] == results;
      UpsertOverwrites(docs, initial, results);
    }
  }

  /** The per-candidate step: `process_bot` of one of the two scripts. */
  type Processor = Repo -> BotRecord

  /** `process_bot` of the given script, as a step. */
  function StepOf(variant: Variant, svc: Services): Processor {
    repo => ProcessBot(variant, svc, repo)
  }

  /** The step applied to every candidate, in order. */
  function ProcessAll(process: Processor, candidates: seq<Repo>): (r: seq<BotRecord>)
    ensures |r| == |candidates|
    ensures forall i :: 0 <= i < |candidates| ==> r[i] == process(candidates[i])
    decreases |candidates|
  {
    if |candidates| == 0 then []
    else
      var n := |candidates| - 1;
      ProcessAll(process, candidates[..n]) + [process(candidates[n])]
  }

  /** The durable state after one more item: the JSON file is rewritten
      when it can be, and the whole list processed so far is re-saved. */
  function NextState(env: Environment, before: Persisted, results: seq<BotRecord>): (after: Persisted)
    requires |results| > 0
    ensures after.collection.None? <==> before.collection.None?
  {
    Persisted(if env.writable(|results| - 1) then Some(results) else before.snapshot,
              SaveResult(before.collection, results, env.dbFault(|results| - 1)))
  }

  /** The durable state once the items that produced `results` are done. */
  function StateAfter(env: Environment, results: seq<BotRecord>, initial: Persisted): (state: Persisted)
    ensures state.collection.None? <==> initial.collection.None?
    decreases |results|
  {
    if |results| == 0 then initial
    else NextState(env, StateAfter(env, results[..|results| - 1], initial), results)
  }

  /** The checkpoints of a run that processed `results`, in order. */
  function Trace(env: Environment, results: seq<BotRecord>, initial: Persisted): (t: seq<Checkpoint>)
    ensures |t| == |results|
    decreases |results|
  {
    if |results| == 0 then []
    else Trace(env, results[..|results| - 1], initial) + [Checkpoint(results, StateAfter(env, results, initial))]
  }

  /** Checkpoint `i` holds the first `i + 1` records and the state reached
      after them. */
  lemma {:induction false} TraceAt(env: Environment, results: seq<BotRecord>, initial: Persisted)
    ensures forall i :: 0 <= i < |results| ==>
      Trace(env, results, initial)[i] == Checkpoint(results[..i + 1], StateAfter(env, results[..i + 1], initial))
    decreases |results|
  {
    if |results| > 0 {
      var n := |results| - 1;
      var t := Trace(env, results, initial);
      TraceAt(env, results[..n], initial);
      forall i | 0 <= i < |results|
        ensures t[i] == Checkpoint(results[..i + 1], StateAfter(env, results[..i + 1], initial))
      {
        if i < n {
          assert t[i] == Trace(env, results[..n], initial)[i];
          assert results[..n][..i + 1] == results[..i + 1];
        } else {
          assert results[..i + 1] == results;
        }
      }
    }
  }

  /** The JSON file holds the list as it stood after the last write that
      succeeded, or what it held before the run when none did; a collection
      is present throughout or never. */
  lemma {:induction false} StateFiles(env: Environment, results: seq<BotRecord>, initial: Persisted)
    ensures StateAfter(env, results, initial).snapshot == FileContents(env, results, initial)
    ensures StateAfter(env, results, initial).collection.None? <==> initial.collection.None?
    decreases |results|
  {
    if |results| > 0 {
      var n := |results| - 1;
      StateFiles(env, results[..n], initial);
      if env.writable(n) {
        assert results[..n + 1] == results;
      } else {
        var last := LastWritable(env.writable, n);
        if last.Some? {
          assert results[..n][..last.value + 1] == results[..last.value + 1];
        }
      }
    }
  }

  /** The collection never loses or changes a document the run did not
      upsert, however the saves fail. */
  lemma {:induction false} StateAgrees(env: Environment, results: seq<BotRecord>, initial: Persisted)
    requires initial.collection.Some?
    ensures var after := StateAfter(env, results, initial).collection;
      after.Some? && AgreeOutside(after.value, initial.collection.value, KeysOf(results))
    decreases |results|
  {
    if |results| > 0 {
      var n := |results| - 1;
      StateAgrees(env, results[..n], initial);
      var before := StateAfter(env, results[..n], initial);
      SaveStep(before.collection.value, initial.collection.value, results[..n], results, env.dbFault(n));
    }
  }

  /** A save that completes holds the initial documents upserted with the
      whole list, whatever earlier failed saves left behind. */
  lemma StateHealthy(env: Environment, results: seq<BotRecord>, initial: Persisted)
    requires initial.collection.Some? && |results| > 0 && env.dbFault(|results| - 1).None?
    ensures StateAfter(env, results, initial).collection == Some(UpsertAll(initial.collection.value, results))
  {
    var n := |results| - 1;
    StateAgrees(env, results[..n], initial);
    var before := StateAfter(env, results[..n], initial);
    SaveStep(before.collection.value, initial.collection.value, results[..n], results, env.dbFault(n));
  }

  /** One more processed record appends one checkpoint. */
  lemma TraceStep(env: Environment, previous: seq<BotRecord>, record: BotRecord, initial: Persisted)
    ensures var results := previous + [record];
      var after := NextState(env, StateAfter(env, previous, initial), results);
      StateAfter(env, results, initial) == after
      && Trace(env, results, initial) == Trace(env, previous, initial) + [Checkpoint(results, after)]
  {
  }

  lemma ProcessAllStep(process: Processor, candidates: seq<Repo>, i: nat)
    requires i < |candidates|
    ensures ProcessAll(process, candidates[..i + 1]) == ProcessAll(process, candidates[..i]) + [process(candidates[i])]
  {
  }

  /** After one item: write the JSON file, then re-save the list. The file
      holds the list when it can be written and is left alone otherwise; the
      collection changes only under the list's keys, and holds the whole
      list upserted when no `update_one` call fails. */
  method SaveProgress(env: Environment, before: Persisted, results: seq<BotRecord>) returns (after: Persisted)
    requires |results| > 0
    ensures after == NextState(env, before, results)
    ensures after.snapshot == if env.writable(|results| - 1) then Some(results) else before.snapshot
    ensures after.collection.None? <==> before.collection.None?
    ensures before.collection.Some? ==>
      AgreeOutside(after.collection.value, before.collection.value, KeysOf(results))
    ensures before.collection.Some? && env.dbFault(|results| - 1).None? ==>
      after.collection == Some(UpsertAll(before.collection.value, results))
  {
    var snapshot := if env.writable(|results| - 1) then Some(results) else before.snapshot;
    var collection := SaveToMongo(before.collection, results, env.dbFault(|results| - 1));
    after := Persisted(snapshot, collection);
    if before.collection.Some? {
      var n := Reached(env.dbFault(|results| - 1), |results|);
      KeysOfPrefix(results, n);
      UpsertTouchesOnlyItsKeys(before.collection.value, results[..n]);
      assert results[..|results|] == results;
    }
  }

  /** The loop of `run`, for either script: process one candidate, write
      the JSON file, re-save everything processed so far. */
  method SaveEachStep(process: Processor, env: Environment, candidates: seq<Repo>, initial: Persisted)
    returns (results: seq<BotRecord>, trace: seq<Checkpoint>, final: Persisted)
    ensures results == ProcessAll(process, candidates)
    ensures trace == Trace(env, results, initial)
    ensures final == StateAfter(env, results, initial)
  {
    results := [];
    trace := [];
    final := initial;
    var i := 0;
    while i < |candidates|
      invariant 0 <= i <= |candidates|
      invariant results == ProcessAll(process, candidates[..i])
      invariant trace == Trace(env, results, initial)
      invariant final == StateAfter(env, results, initial)
    {
      ProcessAllStep(process, candidates, i);
      var record := process(candidates[i]);
      TraceStep(env, results, record, initial);
      results := results + [record];
      final := SaveProgress(env, final, results);
      trace := trace + [Checkpoint(results, final)];
      i := i + 1;
    }
    assert candidates[..i] == candidates;
  }

  /** Every completed save holds the initial documents upserted with the
      list processed up to that point. */
  lemma TraceHealthy(env: Environment, results: seq<BotRecord>, initial: Persisted)
    requires initial.collection.Some?
    ensures forall i :: 0 <= i < |results| && env.dbFault(i).None? ==>
      Trace(env, results, initial)[i].state.collection == Some(UpsertAll(initial.collection.value, results[..i + 1]))
  {
    TraceAt(env, results, initial);
    forall i | 0 <= i < |results| && env.dbFault(i).None?
      ensures StateAfter(env, results[..i + 1], initial).collection
           == Some(UpsertAll(initial.collection.value, results[..i + 1]))
    {
      StateHealthy(env, results[..i + 1], initial);
    }
  }

  /** After every item the JSON file holds the list as it stood after the
      last write that succeeded so far, and a collection is present
      throughout or never. */
  lemma TraceFiles(env: Environment, results: seq<BotRecord>, initial: Persisted)
    ensures forall i :: 0 <= i < |results| ==>
      Trace(env, results, initial)[i].state.snapshot == FileContents(env, results[..i + 1], initial)
    ensures forall i :: 0 <= i < |results| ==>
      (Trace(env, results, initial)[i].state.collection.None? <==> initial.collection.None?)
  {
    TraceAt(env, results, initial);
    forall i | 0 <= i < |results|
      ensures Trace(env, results, initial)[i].state.snapshot == FileContents(env, results[..i + 1], initial)
      ensures Trace(env, results, initial)[i].state.collection.None? <==> initial.collection.None?
    {
      StateFiles(env, results[..i + 1], initial);
    }
  }

  /** main.py's `run()`: every search result is processed, in order; after
      each item the JSON file holds the list as it stood after the last
      write that succeeded, and every save that completes holds the initial
      documents upserted with the list processed so far. */
  method RunMain(svc: Services, env: Environment, bots: seq<Repo>, initial: Persisted)
    returns (results: seq<BotRecord>, trace: seq<Checkpoint>, final: Persisted)
    ensures |results| == |bots| && |trace| == |bots|
    ensures forall i :: 0 <= i < |bots| ==> results[i] == ProcessBot(MainScript, svc, bots[i])
    ensures trace == Trace(env, results, initial)
    ensures forall i :: 0 <= i < |trace| ==> trace[i].saved == results[..i + 1]
    ensures forall i :: 0 <= i < |trace| ==> trace[i].state.snapshot == FileContents(env, results[..i + 1], initial)
    ensures forall i :: 0 <= i < |trace| ==> (trace[i].state.collection.None? <==> initial.collection.None?)
    ensures initial.collection.Some? ==> forall i :: 0 <= i < |trace| && env.dbFault(i).None? ==>
      trace[i].state.collection == Some(UpsertAll(initial.collection.value, results[..i + 1]))
    ensures bots == [] ==> final == initial
    ensures final.snapshot == FileContents(env, results, initial)
    ensures bots != [] && env.writable(|bots| - 1) ==> final.snapshot == Some(results)
    ensures (forall j :: 0 <= j < |bots| ==> !env.writable(j)) ==> final.snapshot == initial.snapshot
    ensures final.collection.None? <==> initial.collection.None?
    ensures bots != [] && initial.collection.Some? && env.dbFault(|bots| - 1).None? ==>
      final.collection == Some(UpsertAll(initial.collection.value, results))
    ensures initial.collection.Some? ==>
      AgreeOutside(final.collection.value, initial.collection.value, KeysOf(results))
  {
    results, trace, final := SaveEachStep(StepOf(MainScript, svc), env, bots, initial);
    Settled(env, results, initial);
    Checkpoints(env, results, initial);
  }

  /** scraper.py's `run(limit)`: with a non-zero `limit` only the first
      candidates (Python slice semantics) are processed, in order; the
      checkpoints and the end state are those of main.py's run over them. */
  method RunScraper(svc: Services, env: Environment, bots: seq<Repo>, limit: Option<int>, initial: Persisted)
    returns (results: seq<BotRecord>, trace: seq<Checkpoint>, final: Persisted)
    ensures |results| == |ApplyLimit(bots, limit)| && |trace| == |results|
    ensures limit.Some? && limit.value > 0 ==> |results| == if limit.value < |bots| then limit.value else |bots|
    ensures limit.None? || limit.value == 0 ==> |results| == |bots|
    ensures forall i :: 0 <= i < |results| ==> i < |bots| && results[i] == ProcessBot(ScraperScript, svc, bots[i])
    ensures trace == Trace(env, results, initial)
    ensures forall i :: 0 <= i < |trace| ==> trace[i].saved == results[..i + 1]
    ensures forall i :: 0 <= i < |trace| ==> trace[i].state.snapshot == FileContents(env, results[..i + 1], initial)
    ensures forall i :: 0 <= i < |trace| ==> (trace[i].state.collection.None? <==> initial.collection.None?)
    ensures initial.collection.Some? ==> forall i :: 0 <= i < |trace| && env.dbFault(i).None? ==>
      trace[i].state.collection == Some(UpsertAll(initial.collection.value, results[..i + 1]))
    ensures results == [] ==> final == initial
    ensures final.snapshot == FileContents(env, results, initial)
    ensures results != [] && env.writable(|results| - 1) ==> final.snapshot == Some(results)
    ensures (forall j :: 0 <= j < |results| ==> !env.writable(j)) ==> final.snapshot == initial.snapshot
    ensures final.collection.None? <==> initial.collection.None?
    ensures results != [] && initial.collection.Some? && env.dbFault(|results| - 1).None? ==>
      final.collection == Some(UpsertAll(initial.collection.value, results))
    ensures initial.collection.Some? ==>
      AgreeOutside(final.collection.value, initial.collection.value, KeysOf(results))
  {
    var candidates := ApplyLimit(bots, limit);
    results, trace, final := SaveEachStep(StepOf(ScraperScript, svc), env, candidates, initial);
    Settled(env, results, initial);
    Checkpoints(env, results, initial);
  }

  /** What every checkpoint of a run holds, whichever script ran it. */
  lemma Checkpoints(env: Environment, results: seq<BotRecord>, initial: Persisted)
    ensures forall i :: 0 <= i < |results| ==> Trace(env, results, initial)[i].saved == results[..i + 1]
    ensures forall i :: 0 <= i < |results| ==>
      Trace(env, results, initial)[i].state.snapshot == FileContents(env, results[..i + 1], initial)
    ensures forall i :: 0 <= i < |results| ==>
      (Trace(env, results, initial)[i].state.collection.None? <==> initial.collection.None?)
    ensures initial.collection.Some? ==> forall i :: 0 <= i < |results| && env.dbFault(i).None? ==>
      Trace(env, results, initial)[i].state.collection == Some(UpsertAll(initial.collection.value, results[..i + 1]))
  {
    TraceAt(env, results, initial);
    TraceFiles(env, results, initial);
    if initial.collection.Some? {
      TraceHealthy(env, results, initial);
    }
  }

  /** The state a run ends in, whichever script ran it. */
  lemma Settled(env: Environment, results: seq<BotRecord>, initial: Persisted)
    ensures results == [] ==> StateAfter(env, results, initial) == initial
    ensures StateAfter(env, results, initial).snapshot == FileContents(env, results, initial)
    ensures results != [] && env.writable(|results| - 1) ==> StateAfter(env, results, initial).snapshot == Some(results)
    ensures (forall j :: 0 <= j < |results| ==> !env.writable(j)) ==>
      StateAfter(env, results, initial).snapshot == initial.snapshot
    ensures StateAfter(env, results, initial).collection.None? <==> initial.collection.None?
    ensures results != [] && initial.collection.Some? && env.dbFault(|results| - 1).None? ==>
      StateAfter(env, results, initial).collection == Some(UpsertAll(initial.collection.value, results))
    ensures initial.collection.Some? ==>
      && StateAfter(env, results, initial).collection.Some?
      && AgreeOutside(StateAfter(env, results, initial).collection.value, initial.collection.value, KeysOf(results))
  {
    if initial.collection.Some? {
      StateAgrees(env, results, initial);
    }
    StateFiles(env, results, initial);
    if results != [] {
      assert results[..|results|] == results;
      if initial.collection.Some? && env.dbFault(|results| - 1).None? {
        StateHealthy(env, results, initial);
      }
    }
  }
}
