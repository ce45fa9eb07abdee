/** What a timer queue means: the pending timers in insertion order, and the plain list queue that
    scans all of them on every call. */
module TimerSpec {
  type Instant = int

  datatype Kind =
    | Deadline(target: Instant)
    | Frame(at: nat)

  /** A pending timer. `ready` marks one that an earlier bounded drain found eligible and left queued. */
  datatype Entry = Entry(sequence: nat, id: nat, kind: Kind, ready: bool)

  predicate IsDue(kind: Kind, now: Instant, frame: nat) {
    match kind
    case Deadline(target) => now >= target
    case Frame(at) => frame >= at
  }

  predicate Eligible(e: Entry, now: Instant, frame: nat) {
    e.ready || IsDue(e.kind, now, frame)
  }

  /** The pending timers a call at (`now`, `frame`) may return, in insertion order. */
  function EligibleOf(s: seq<Entry>, now: Instant, frame: nat): (r: seq<Entry>)
    ensures |r| <= |s|
  {
    if s == [] then [] else
      (if Eligible(s[0], now, frame) then [s[0]] else []) + EligibleOf(s[1..], now, frame)
  }

  /** The others, in insertion order. */
  function WaitingOf(s: seq<Entry>, now: Instant, frame: nat): (r: seq<Entry>)
    ensures |r| == |s| - |EligibleOf(s, now, frame)|
  {
    if s == [] then [] else
      (if Eligible(s[0], now, frame) then [] else [s[0]]) + WaitingOf(s[1..], now, frame)
  }

  function Ids(s: seq<Entry>): (r: seq<nat>)
    ensures |r| == |s|
    ensures forall i | 0 <= i < |s| :: r[i] == s[i].id
  {
    if s == [] then [] else [s[0].id] + Ids(s[1..])
  }

  function Without(s: seq<Entry>, id: nat): (r: seq<Entry>)
    ensures |r| <= |s|
  {
    if s == [] then [] else (if s[0].id == id then [] else [s[0]]) + Without(s[1..], id)
  }

  /** A bounded drain first marks every eligible entry ready, then takes the first ones. */
  function Marked(e: Entry, now: Instant, frame: nat): Entry {
    e.(ready := Eligible(e, now, frame))
  }

  function MarkReady(s: seq<Entry>, now: Instant, frame: nat): (r: seq<Entry>)
    ensures |r| == |s|
    ensures forall i | 0 <= i < |s| :: r[i] == Marked(s[i], now, frame)
  {
    if s == [] then [] else [Marked(s[0], now, frame)] + MarkReady(s[1..], now, frame)
  }

  /** `s` without its first `n` ready entries. */
  function DropReady(s: seq<Entry>, n: nat): (r: seq<Entry>)
  {
    if n == 0 || s == [] then s
    else if s[0].ready then DropReady(s[1..], n - 1)
    else [s[0]] + DropReady(s[1..], n)
  }

  /** The first `n` ready entries of `s`. */
  function TakeReady(s: seq<Entry>, n: nat): (r: seq<Entry>)
    ensures |r| <= n
  {
    if n == 0 || s == [] then []
    else if s[0].ready then [s[0]] + TakeReady(s[1..], n - 1)
    else TakeReady(s[1..], n)
  }

  /** The timers a call at (`now`, `frame`) finds newly due. */
  predicate Fresh(e: Entry, now: Instant, frame: nat) {
    !e.ready && IsDue(e.kind, now, frame)
  }

  function FreshOf(s: seq<Entry>, now: Instant, frame: nat): (r: seq<Entry>)
  {
    if s == [] then [] else
      (if Fresh(s[0], now, frame) then [s[0]] else []) + FreshOf(s[1..], now, frame)
  }

  /** Some deadline is still ahead: the first of them stops the search. */
  predicate DeadlineAhead(s: seq<Entry>, now: Instant) {
    exists i | 0 <= i < |s| :: !s[i].ready && s[i].kind.Deadline? && now < s[i].kind.target
  }

  /** Entries visited by a search for eligible timers. */
  function Visits(s: seq<Entry>, now: Instant, frame: nat): nat {
    |FreshOf(s, now, frame)| + if DeadlineAhead(s, now) then 1 else 0
  }
}
