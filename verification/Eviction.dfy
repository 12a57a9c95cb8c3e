/** The eviction driver: one pass removes oldest closed evidence segments between two watermarks. */
module Eviction {
  import opened Common
  import opened EvidenceLog
  import opened SegmentLogObject

  datatype EvictionConfig = EvictionConfig(highWaterPct: real, lowWaterPct: real, maxEvictionsPerTick: nat)

  datatype EvictionOutcome = EvictionOutcome(evicted: nat, initialFill: real, finalFill: real, ranDry: bool)

  function FillPct(total: nat, limit: nat): real {
    if limit == 0 then 100.0 else total as real / limit as real * 100.0
  }

  /** The fill is so many per cent of the quota; a quota of zero counts as full. */
  predicate IsFill(pct: real, total: nat, limit: nat) {
    if limit == 0 then pct == 100.0 else pct * limit as real == total as real * 100.0
  }

  /** `FillPct` is the one number that is the fill. */
  lemma FillIsShare(total: nat, limit: nat)
    ensures IsFill(FillPct(total, limit), total, limit)
    ensures forall pct :: IsFill(pct, total, limit) ==> pct == FillPct(total, limit)
  {
    if limit != 0 {
      var share := total as real / limit as real;
      assert share * limit as real == total as real;
      forall pct | IsFill(pct, total, limit)
        ensures pct == FillPct(total, limit)
      {
        SameQuotient(pct, share * 100.0, limit as real);
      }
    }
  }

  lemma SameQuotient(a: real, b: real, d: real)
    requires d != 0.0 && a * d == b * d
    ensures a == b
  {
    assert a == a * d / d && b == b * d / d;
  }

  function FillOf(cfg: Config, log: Log): real {
    FillPct(log.totalBytes, cfg.quotaLimit)
  }

  /** The log after `k` evictions of the oldest closed segment. */
  function EvictMany(log: Log, k: nat): (r: Log)
    ensures r.nextSegmentId == log.nextSegmentId && r.active == log.active
  {
    if k == 0 then log else EvictStep(EvictMany(log, k - 1)).0
  }

  function ClosedIds(files: Files): set<nat> {
    set id | id in files && files[id].state == Closed
  }

  /** Each of the first `k` evictions finds a closed segment. */
  predicate CanEvict(log: Log, k: nat) {
    k == 0 || (CanEvict(log, k - 1) && EvictStep(EvictMany(log, k - 1)).1.Some?)
  }

  lemma EvictStepTakesLowest(log: Log)
    requires IdsBelow(log.files, log.nextSegmentId) && EvictStep(log).1.Some?
    ensures var (after, r) := EvictStep(log);
            && after.files == log.files - {r.value}
            && r.value in ClosedIds(log.files)
            && forall b <- ClosedIds(log.files) :: r.value <= b
  {
  }

  /** Exactly `k` files are gone, they are the lowest-id closed ones, nothing else changed. */
  ghost predicate LowestGone(files: Files, after: Files, gone: set<nat>, k: nat) {
    && gone <= ClosedIds(files)
    && |gone| == k
    && after == files - gone
    && forall a, b :: a in gone && b in ClosedIds(after) ==> a < b
  }

  lemma NothingGone(files: Files)
    ensures LowestGone(files, files, files.Keys - files.Keys, 0)
  {
    assert files - {} == files;
    assert files.Keys - files.Keys == {};
  }

  lemma OneMoreGone(files: Files, before: Files, gone: set<nat>, k: nat, id: nat)
    requires LowestGone(files, before, gone, k)
    requires id in ClosedIds(before) && forall b <- ClosedIds(before) :: id <= b
    ensures LowestGone(files, before - {id}, gone + {id}, k + 1)
  {
    var after := before - {id};
    assert id !in gone;
    assert |gone + {id}| == k + 1;
    assert after == files - (gone + {id});
    forall a, b | a in gone + {id} && b in ClosedIds(after)
      ensures a < b
    {
      assert b in ClosedIds(before) && b != id;
    }
  }

  lemma EvictOneMore(files: Files, before: Log, k: nat)
    requires IdsBelow(before.files, before.nextSegmentId) && EvictStep(before).1.Some?
    requires before.files.Keys <= files.Keys
    requires LowestGone(files, before.files, files.Keys - before.files.Keys, k)
    ensures var after := EvictStep(before).0;
            && IdsBelow(after.files, before.nextSegmentId)
            && after.files.Keys <= files.Keys
            && LowestGone(files, after.files, files.Keys - after.files.Keys, k + 1)
  {
    var (after, r) := EvictStep(before);
    EvictStepTakesLowest(before);
    OneMoreGone(files, before.files, files.Keys - before.files.Keys, k, r.value);
    assert files.Keys - after.files.Keys == (files.Keys - before.files.Keys) + {r.value};
  }

  /** `k` successful evictions remove exactly `k` files, the lowest-id closed ones. */
  lemma {:induction false} EvictManyRemovesLowest(log: Log, k: nat)
    requires IdsBelow(log.files, log.nextSegmentId)
    requires CanEvict(log, k)
    ensures var after := EvictMany(log, k);
            && IdsBelow(after.files, log.nextSegmentId)
            && after.files.Keys <= log.files.Keys
            && LowestGone(log.files, after.files, log.files.Keys - after.files.Keys, k)
  {
    if k == 0 {
      NothingGone(log.files);
    } else {
      EvictManyRemovesLowest(log, k - 1);
      EvictOneMore(log.files, EvictMany(log, k - 1), k - 1);
    }
  }

  /** The state after `k` evictions of a pass that started from `start`, none of which but the
      last brought the fill below the low watermark. */
  ghost predicate PassAt(cfg: Config, start: Log, now: Log, k: nat, low: real) {
    && CanEvict(start, k)
    && now == EvictMany(start, k)
    && forall j :: 0 < j < k ==> FillOf(cfg, EvictMany(start, j)) >= low
  }

  method EvictOnce(log: SegmentLog, ghost start: Log, ghost k: nat, ghost low: real) returns (r: Option<nat>)
    requires log.Valid() && PassAt(log.cfg, start, log.Value(), k, low)
    requires k > 0 ==> FillOf(log.cfg, log.Value()) >= low
    modifies log, log.dir
    ensures log.Valid()
    ensures PassAt(log.cfg, start, log.Value(), if r.Some? then k + 1 else k, low)
    ensures r.None? ==> log.Value() == old(log.Value()) && ClosedIds(log.dir.files) == {}
  {
    r := log.EvictOldestClosed();
  }

  /** One pass. It starts only at or above the high watermark and then evicts oldest first until
      it falls below the low watermark, runs out of closed segments, or reaches the cap, or until an
      eviction fails: `failsAt` counts the ones before it, and the failed one changes nothing. */
  method RunOnce(log: SegmentLog, config: EvictionConfig, failsAt: Option<nat>) returns (outcome: EvictionOutcome)
    requires log.Valid()
    modifies log, log.dir
    ensures log.Valid()
    ensures PassAt(log.cfg, old(log.Value()), log.Value(), outcome.evicted, config.lowWaterPct)
    ensures LowestGone(old(log.dir.files), log.dir.files,
                       old(log.dir.files).Keys - log.dir.files.Keys, outcome.evicted)
    ensures outcome.evicted <= config.maxEvictionsPerTick
    ensures outcome.initialFill == FillOf(log.cfg, old(log.Value()))
    ensures outcome.finalFill == FillOf(log.cfg, log.Value())
    ensures outcome.initialFill < config.highWaterPct ==> outcome.evicted == 0 && !outcome.ranDry
    ensures outcome.initialFill >= config.highWaterPct ==>
        || outcome.ranDry
        || (outcome.evicted > 0 && outcome.finalFill < config.lowWaterPct)
        || outcome.evicted == config.maxEvictionsPerTick
        || failsAt == Some(outcome.evicted)
    ensures failsAt.Some? ==> outcome.evicted <= failsAt.value
    ensures outcome.ranDry ==> ClosedIds(log.dir.files) == {} && outcome.evicted < config.maxEvictionsPerTick
  {
    ghost var start := log.Value();
    outcome := EvictDownTo(log, config, failsAt);
    EvictManyRemovesLowest(start, outcome.evicted);
  }

  method EvictDownTo(log: SegmentLog, config: EvictionConfig, failsAt: Option<nat>) returns (outcome: EvictionOutcome)
    requires log.Valid()
    modifies log, log.dir
    ensures log.Valid()
    ensures PassAt(log.cfg, old(log.Value()), log.Value(), outcome.evicted, config.lowWaterPct)
    ensures outcome.evicted <= config.maxEvictionsPerTick
    ensures outcome.initialFill == FillOf(log.cfg, old(log.Value()))
    ensures outcome.finalFill == FillOf(log.cfg, log.Value())
    ensures outcome.initialFill < config.highWaterPct ==> outcome.evicted == 0 && !outcome.ranDry
    ensures outcome.initialFill >= config.highWaterPct ==>
        || outcome.ranDry
        || (outcome.evicted > 0 && outcome.finalFill < config.lowWaterPct)
        || outcome.evicted == config.maxEvictionsPerTick
        || failsAt == Some(outcome.evicted)
    ensures failsAt.Some? ==> outcome.evicted <= failsAt.value
    ensures outcome.ranDry ==> ClosedIds(log.dir.files) == {} && outcome.evicted < config.maxEvictionsPerTick
  {
    ghost var start := log.Value();
    var evicted := 0;
    var initialFill := FillPct(log.totalBytes, log.cfg.quotaLimit);
    if initialFill < config.highWaterPct {
      return EvictionOutcome(evicted, initialFill, initialFill, false);
    }
    while evicted < config.maxEvictionsPerTick
      invariant log.Valid() && PassAt(log.cfg, start, log.Value(), evicted, config.lowWaterPct)
      invariant evicted <= config.maxEvictionsPerTick
      invariant evicted > 0 ==> FillOf(log.cfg, log.Value()) >= config.lowWaterPct
      invariant failsAt.Some? ==> evicted <= failsAt.value
    {
      if failsAt == Some(evicted) {
        var fill := FillPct(log.totalBytes, log.cfg.quotaLimit);
        return EvictionOutcome(evicted, initialFill, fill, false);
      }
      var result := EvictOnce(log, start, evicted, config.lowWaterPct);
      var fill := FillPct(log.totalBytes, log.cfg.quotaLimit);
      if result.None? {
        return EvictionOutcome(evicted, initialFill, fill, true);
      }
      evicted := evicted + 1;
      if fill < config.lowWaterPct {
        return EvictionOutcome(evicted, initialFill, fill, false);
      }
    }
    var finalFill := FillPct(log.totalBytes, log.cfg.quotaLimit);
    outcome := EvictionOutcome(evicted, initialFill, finalFill, false);
  }
}
