/** The three-phase timestamp rule: `CalculateTimestamp` in cosmos/x/evm/keeper/keeper.go. */
module Timestamps {
  import opened GoInts
  import opened Options

  /** `use_block_timestamp`: between start and stop the timestamp is the block height plus an offset. */
  datatype Window = Window(start: uint64, offset: uint64, stop: Option<uint64>)
  datatype TimeConfig = TimeConfig(window: Option<Window>, unixOffset: uint64)

  predicate InWindow(cfg: TimeConfig, height: uint64) {
    && cfg.window.Some?
    && height >= cfg.window.value.start
    && (cfg.window.value.stop.None? || height < cfg.window.value.stop.value)
  }

  function CalculateTimestamp(cfg: TimeConfig, blockTime: int64, height: uint64, previous: uint64): uint64 {
    if InWindow(cfg, height) then WindowTimestamp(cfg, height) else
    var pastWindow := cfg.window.Some? && cfg.window.value.stop.Some? && height >= cfg.window.value.stop.value;
    var timestamp := ToUint64(ToUint64(blockTime) + (if pastWindow then cfg.unixOffset else 0));
    if timestamp <= previous then ToUint64(previous + 1) else timestamp
  }

  /** From the start height on and before the stop height, if there is one, the timestamp is height + offset. */
  lemma TimestampInsideWindow(cfg: TimeConfig, blockTime: int64, height: uint64, previous: uint64)
    requires cfg.window.Some? && cfg.window.value.start <= height
    requires cfg.window.value.stop.Some? ==> height < cfg.window.value.stop.value
    ensures CalculateTimestamp(cfg, blockTime, height, previous) == (height + cfg.window.value.offset) % TWO_64
  {
  }

  /** There is no window, or the height lies below its start, or at its stop or above. */
  predicate OutsideWindow(cfg: TimeConfig, height: uint64) {
    || cfg.window.None?
    || height < cfg.window.value.start
    || (cfg.window.value.stop.Some? && cfg.window.value.stop.value <= height)
  }

  /** Outside the window the clock always moves forward, unless the stored timestamp is the largest uint64. */
  lemma ProgressOutsideWindow(cfg: TimeConfig, blockTime: int64, height: uint64, previous: uint64)
    requires OutsideWindow(cfg, height)
    ensures CalculateTimestamp(cfg, blockTime, height, previous) > previous <==> previous < TWO_64 - 1
  {
  }

  /** Inside the window the result depends on the height alone. */
  function WindowTimestamp(cfg: TimeConfig, height: uint64): uint64
    requires cfg.window.Some?
  {
    ToUint64(height + cfg.window.value.offset)
  }

  /** The wall clock of a block, moved by `unix_timestamp_offset` once the window is over. */
  function Clock(cfg: TimeConfig, blockTime: int64, height: uint64): int {
    blockTime + if cfg.window.Some? && cfg.window.value.stop.Some? && height >= cfg.window.value.stop.value
                then cfg.unixOffset else 0
  }

  /**
   Outside the window the result is the least timestamp that is later than the stored one and
   not before the clock. A clock that is no uint64 counts modulo 2^64: `turns` is how often it
   wraps around. After the last uint64 the result is 0.
   */
  lemma LeastLaterTimestamp(cfg: TimeConfig, blockTime: int64, height: uint64, previous: uint64, turns: int, t: uint64)
    requires OutsideWindow(cfg, height)
    requires 0 <= Clock(cfg, blockTime, height) + turns * TWO_64 < TWO_64
    ensures var r := CalculateTimestamp(cfg, blockTime, height, previous);
            var clock := Clock(cfg, blockTime, height) + turns * TWO_64;
            if previous == TWO_64 - 1 then r == 0
            else r > previous && r >= clock && (t > previous && t >= clock ==> r <= t)
  {
    var moved := if cfg.window.Some? && cfg.window.value.stop.Some? && height >= cfg.window.value.stop.value
                 then cfg.unixOffset else 0;
    ClockWord(blockTime, moved, turns);
    hide ToUint64;
    assert previous < TWO_64 - 1 ==> ToUint64(previous + 1) == previous + 1;
    assert previous == TWO_64 - 1 ==> ToUint64(previous + 1) == 0 by { LastWordWraps(); }
  }

  lemma ClockWord(blockTime: int64, moved: uint64, turns: int)
    requires 0 <= blockTime + moved + turns * TWO_64 < TWO_64
    ensures ToUint64(ToUint64(blockTime) + moved) == blockTime + moved + turns * TWO_64
  {
  }

  lemma LastWordWraps()
    ensures ToUint64(TWO_64) == 0
  {
  }
}
