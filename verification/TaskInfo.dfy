/** What a list entry holds and when a sweep drops it. */
module TaskInfo {
  import opened Words
  import opened Masks

  datatype Info = Info(pid: int, timestamp: u64, count: i32)

  const MAX_COUNT := 5
  const SECONDS := 3

  function Fresh(pid: int, clock: nat): Info {
    Info(pid, Jiffies(clock), 0)
  }

  /** A repeated add of a known pid. */
  function Touch(x: Info, clock: nat): Info {
    x.(timestamp := Jiffies(clock), count := Inc32(x.count))
  }

  /** The test of the sweep, in the machine's 64-bit arithmetic. */
  predicate Expired(x: Info, clock: nat, hz: nat) {
    Sub64(Jiffies(clock), x.timestamp) > SECONDS * hz && x.count < MAX_COUNT
  }

  /** The position of the first entry with this pid, or the length if there is none. */
  function Find(xs: seq<Info>, pid: int): (i: nat)
    ensures i <= |xs|
    ensures i < |xs| ==> xs[i].pid == pid
    ensures forall j :: 0 <= j < i ==> xs[j].pid != pid
  {
    if xs == [] || xs[0].pid == pid then 0 else 1 + Find(xs[1..], pid)
  }

  lemma {:induction false} FindUnique(xs: seq<Info>, pid: int, i: nat)
    requires i <= |xs| && (i < |xs| ==> xs[i].pid == pid)
    requires forall j :: 0 <= j < i ==> xs[j].pid != pid
    ensures i == Find(xs, pid)
  {
  }

  /** Which entries a sweep keeps when entry i is tested at clock times[i]. */
  function SweepMask(xs: seq<Info>, times: seq<nat>, hz: nat): (mask: seq<bool>)
    requires |times| == |xs|
    ensures |mask| == |xs|
  {
    seq(|xs|, i requires 0 <= i < |xs| => !Expired(xs[i], times[i], hz))
  }

  lemma SweepMaskAt(xs: seq<Info>, times: seq<nat>, hz: nat, i: nat)
    requires |times| == |xs| && i < |xs|
    ensures SweepMask(xs, times, hz)[i] == !Expired(xs[i], times[i], hz)
  {
  }

  function Sweep(xs: seq<Info>, times: seq<nat>, hz: nat): seq<Info>
    requires |times| == |xs|
  {
    Keep(xs, SweepMask(xs, times, hz))
  }

  /** The sweep of one pid only, as `list-full.c` runs it. */
  function PidMask(xs: seq<Info>, pid: int, times: seq<nat>, hz: nat): (mask: seq<bool>)
    requires |times| == |xs|
    ensures |mask| == |xs|
  {
    seq(|xs|, i requires 0 <= i < |xs| => !(xs[i].pid == pid && Expired(xs[i], times[i], hz)))
  }

  lemma PidMaskAt(xs: seq<Info>, pid: int, times: seq<nat>, hz: nat, i: nat)
    requires |times| == |xs| && i < |xs|
    ensures PidMask(xs, pid, times, hz)[i] == !(xs[i].pid == pid && Expired(xs[i], times[i], hz))
  {
  }

  function SweepPid(xs: seq<Info>, pid: int, times: seq<nat>, hz: nat): seq<Info>
    requires |times| == |xs|
  {
    Keep(xs, PidMask(xs, pid, times, hz))
  }

  /** What `task_info_print_list` emits for each entry. */
  function Printed(xs: seq<Info>): (r: seq<(int, u64)>)
    ensures |r| == |xs|
  {
    seq(|xs|, i requires 0 <= i < |xs| => (xs[i].pid, xs[i].timestamp))
  }
}
