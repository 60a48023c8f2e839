/** The per-operation hedging delays of src/include/hedged_request_config.hpp: the
    operation kinds, the default table, and the configuration value that holds one
    delay per operation. */
module RequestConfig {
  import opened Common

  /** The operations a hedged filesystem can race, in the order of their enum values. */
  datatype HedgedRequestOperation =
    | OpenFile
    | Glob
    | FileExists
    | DirectoryExists
    | GetFileSize
    | GetLastModifiedTime
    | GetFileType
    | GetVersionTag
    | ListFiles

  /** The enum's `COUNT` member: the number of operations. */
  const COUNT: nat := 9

  /** The enum value of `op`, which is also its index in every per-operation table. */
  function Index(op: HedgedRequestOperation): (i: nat)
    ensures i < COUNT
  {
    match op
    case OpenFile => 0
    case Glob => 1
    case FileExists => 2
    case DirectoryExists => 3
    case GetFileSize => 4
    case GetLastModifiedTime => 5
    case GetFileType => 6
    case GetVersionTag => 7
    case ListFiles => 8
  }

  /** The operation with enum value `i`: every index below `COUNT` names exactly one. */
  function FromIndex(i: nat): (op: HedgedRequestOperation)
    requires i < COUNT
    ensures Index(op) == i
  {
    [OpenFile, Glob, FileExists, DirectoryExists, GetFileSize,
     GetLastModifiedTime, GetFileType, GetVersionTag, ListFiles][i]
  }

  /** Distinct operations have distinct indices, so the tables hold one slot per operation. */
  lemma IndexInjective(a: HedgedRequestOperation, b: HedgedRequestOperation)
    requires Index(a) == Index(b)
    ensures a == b
  {
    assert FromIndex(Index(a)) == a;
  }

  /** The default delay in milliseconds before a hedge starts, indexed by `Index`. */
  const DEFAULT_HEDGING_DELAYS_MS: seq<int64> := [3000, 5000, 3000, 3000, 3000, 3000, 3000, 3000, 5000]

  /** The default delay of one operation: 5 s for the two listing operations, 3 s for
      every other one, and never zero or negative. */
  function DefaultDelay(op: HedgedRequestOperation): (d: int64)
    ensures d > 0
    ensures d == 5000 <==> op == Glob || op == ListFiles
    ensures d != 5000 ==> d == 3000
  {
    DEFAULT_HEDGING_DELAYS_MS[Index(op)]
  }

  /** One delay per operation, in milliseconds. A struct copied by value. */
  datatype HedgedRequestConfig = HedgedRequestConfig(delays_ms: seq<int64>)
  {
    ghost predicate Valid()
    {
      |delays_ms| == COUNT
    }

    /** The delay configured for `op`. */
    function Delay(op: HedgedRequestOperation): int64
      requires Valid()
    {
      delays_ms[Index(op)]
    }
  }

  /** The default-constructed configuration: every slot filled from the default table. */
  method NewHedgedRequestConfig() returns (c: HedgedRequestConfig)
    ensures c.Valid()
    ensures forall op :: c.Delay(op) == DefaultDelay(op)
    ensures c.delays_ms == DEFAULT_HEDGING_DELAYS_MS
  {
    var delays := new int64[COUNT];
    for idx := 0 to COUNT
      invariant delays[..idx] == DEFAULT_HEDGING_DELAYS_MS[..idx]
    {
      delays[idx] := DEFAULT_HEDGING_DELAYS_MS[idx];
    }
    assert delays[..COUNT] == delays[..];
    c := HedgedRequestConfig(delays[..]);
  }

  /** The configuration with the delay of `op` replaced by `delay` and every other
      delay kept. */
  function UpdateDelay(c: HedgedRequestConfig, op: HedgedRequestOperation, delay: int64): (r: HedgedRequestConfig)
    requires c.Valid()
    ensures r.Valid()
    ensures r.Delay(op) == delay
    ensures forall other :: other != op ==> r.Delay(other) == c.Delay(other)
  {
    HedgedRequestConfig(c.delays_ms[Index(op) := delay])
  }

  /** Setting a delay twice keeps only the second value; setting it to what it already
      is changes nothing. */
  lemma UpdateDelayOverwrites(c: HedgedRequestConfig, op: HedgedRequestOperation, d1: int64, d2: int64)
    requires c.Valid()
    ensures UpdateDelay(UpdateDelay(c, op, d1), op, d2) == UpdateDelay(c, op, d2)
    ensures UpdateDelay(c, op, c.Delay(op)) == c
  {
    assert UpdateDelay(UpdateDelay(c, op, d1), op, d2).delays_ms == UpdateDelay(c, op, d2).delays_ms;
    assert UpdateDelay(c, op, c.Delay(op)).delays_ms == c.delays_ms;
  }

  /** Updates of two different operations do not interfere: their order does not matter. */
  lemma UpdateDelayCommutes(c: HedgedRequestConfig, a: HedgedRequestOperation, da: int64,
                                               b: HedgedRequestOperation, db: int64)
    requires c.Valid() && a != b
    ensures UpdateDelay(UpdateDelay(c, a, da), b, db) == UpdateDelay(UpdateDelay(c, b, db), a, da)
  {
    if Index(a) == Index(b) {
      IndexInjective(a, b);
    }
    assert UpdateDelay(UpdateDelay(c, a, da), b, db).delays_ms == UpdateDelay(UpdateDelay(c, b, db), a, da).delays_ms;
  }
}
