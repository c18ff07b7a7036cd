/**
 * `FileChangePPCallback`: the include-depth counter the wrapper attaches to
 * the preprocessor. The counter is an `unsigned int`, so it wraps modulo 2^32
 * in both directions.
 */
module FileDepth {

  datatype FileChangeReason = EnterFile | ExitFile | SystemHeaderPragma | RenameFile

  const DepthModulus: nat := 0x1_0000_0000

  type Depth = d: nat | d < DepthModulus

  /** `FileChanged`: +1 on EnterFile, -1 on ExitFile, nothing otherwise, all modulo 2^32. */
  function FileChanged(d: Depth, reason: FileChangeReason): (r: Depth)
    ensures reason.EnterFile? ==> (r as int) == (d + 1) % DepthModulus
    ensures reason.ExitFile? ==> (r as int) == (d - 1) % DepthModulus
    ensures !reason.EnterFile? && !reason.ExitFile? ==> r == d
  {
    match reason
    case EnterFile => if d == DepthModulus - 1 then 0 else d + 1
    case ExitFile => if d == 0 then DepthModulus - 1 else d - 1
    case _ => d
  }

  /** The depth after the tracker has seen `events` in order. */
  function Replay(d: Depth, events: seq<FileChangeReason>): Depth
    decreases |events|
  {
    if events == [] then d else Replay(FileChanged(d, events[0]), events[1..])
  }

  function Count(events: seq<FileChangeReason>, reason: FileChangeReason): nat
  {
    if events == [] then 0
    else (if events[0] == reason then 1 else 0) + Count(events[1..], reason)
  }

  /** Entering a file and leaving it again restores the depth, wrap-around included. */
  lemma EnterThenExit(d: Depth)
    ensures FileChanged(FileChanged(d, EnterFile), ExitFile) == d
    ensures FileChanged(FileChanged(d, ExitFile), EnterFile) == d
  {
  }

  /** Replaying events one batch after another is replaying them all. */
  lemma {:induction false} ReplayAppend(d: Depth, a: seq<FileChangeReason>, b: seq<FileChangeReason>)
    ensures Replay(d, a + b) == Replay(Replay(d, a), b)
    decreases |a|
  {
    if a != [] {
      assert (a + b)[0] == a[0];
      assert (a + b)[1..] == a[1..] + b;
      ReplayAppend(FileChanged(d, a[0]), a[1..], b);
    } else {
      assert a + b == b;
    }
  }

  /** The depth is the start depth plus the entries minus the exits, modulo 2^32. */
  lemma {:induction false} ReplayCounts(d: Depth, events: seq<FileChangeReason>)
    ensures (Replay(d, events) as int)
         == (d + Count(events, EnterFile) - Count(events, ExitFile)) % DepthModulus
    decreases |events|
  {
    if events != [] {
      var d1 := FileChanged(d, events[0]);
      ReplayCounts(d1, events[1..]);
      var e := Count(events[1..], EnterFile) - Count(events[1..], ExitFile);
      var step := if events[0] == EnterFile then 1 else if events[0] == ExitFile then -1 else 0;
      assert d1 as int == (d + step) % DepthModulus;
      ModAdd(d + step, e);
    }
  }

  lemma ModAdd(a: int, b: int)
    ensures ((a % DepthModulus) + b) % DepthModulus == (a + b) % DepthModulus
  {
    var q := a / DepthModulus;
    assert a == q * DepthModulus + a % DepthModulus;
    assert (a + b) == (a % DepthModulus + b) + q * DepthModulus;
    ModShift(a % DepthModulus + b, q);
  }

  lemma ModShift(x: int, q: int)
    ensures (x + q * DepthModulus) % DepthModulus == x % DepthModulus
  {
    var r := x % DepthModulus;
    var p := x / DepthModulus;
    assert x == p * DepthModulus + r;
    assert x + q * DepthModulus == (p + q) * DepthModulus + r;
  }

  /** Entering a file raises the counter unless it is at its maximum, where it wraps to 0. */
  lemma EnterRaises(d: Depth)
    ensures FileChanged(d, EnterFile) > d <==> d < DepthModulus - 1
  {
  }
}
