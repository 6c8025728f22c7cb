/**
 The limit on hellos from one IP (allow_hello in src/neighbors.rs): first from
 one IP's side, with when its window started, how many hellos that window has
 counted and when it was admitted, then the bounded table of all of them.
 */
module HelloLimit {
  import opened Basics
  import opened Trust

  const HELLOS_PER_IP := 5
  const HELLO_WINDOW := 30_000
  const MAX_TRACKED_IPS := 64

  /** How many of `times` are in the half-open interval from `low` to `high`. */
  function Count(times: seq<int>, low: int, high: int): (n: nat)
    ensures n <= |times|
  {
    if times == [] then 0
    else
      var last := times[|times| - 1];
      Count(times[..|times| - 1], low, high) + if low <= last < high then 1 else 0
  }

  lemma {:induction false} CountSplits(times: seq<int>, low: int, middle: int, high: int)
    requires low <= middle <= high
    ensures Count(times, low, high) == Count(times, low, middle) + Count(times, middle, high)
  {
    if times != [] { CountSplits(times[..|times| - 1], low, middle, high); }
  }

  lemma {:induction false} CountNone(times: seq<int>, low: int, high: int)
    requires forall i :: 0 <= i < |times| ==> !(low <= times[i] < high)
    ensures Count(times, low, high) == 0
  {
    if times != [] { CountNone(times[..|times| - 1], low, high); }
  }

  lemma CountAdds(times: seq<int>, now: int, low: int, high: int)
    ensures Count(times + [now], low, high) == Count(times, low, high) + if low <= now < high then 1 else 0
  {
    assert (times + [now])[..|times|] == times;
  }

  /** The current window, or the last one when it has run out. */
  datatype Window = Window(start: int, count: nat)

  /**
   All admissions are before the window's end, as many since its start as it
   counted and allowed, and at most a window's worth in the time before it.
   */
  ghost predicate Tracks(w: Window, times: seq<int>) {
    && (forall i :: 0 <= i < |times| ==> times[i] < w.start + HELLO_WINDOW)
    && Count(times, w.start, w.start + HELLO_WINDOW) == Min(w.count, HELLOS_PER_IP)
    && (forall low: int :: w.start - HELLO_WINDOW < low <= w.start ==> Count(times, low, w.start) <= HELLOS_PER_IP)
  }

  /** How many of `times` are in the window-long interval that starts at `low`. */
  function From(times: seq<int>, low: int): nat {
    Count(times, low, low + HELLO_WINDOW)
  }

  /** No interval as long as a window has more than two windows' worth of admissions. */
  ghost predicate Limited(times: seq<int>) {
    forall low: int :: From(times, low) <= 2 * HELLOS_PER_IP
  }

  /** Another hello inside the window is admitted while there is room in it. */
  lemma SameWindow(w: Window, times: seq<int>, now: int)
    requires Tracks(w, times) && Limited(times) && w.start <= now < w.start + HELLO_WINDOW
    ensures var next := Window(w.start, w.count + 1);
      var after := if next.count <= HELLOS_PER_IP then times + [now] else times;
      Tracks(next, after) && Limited(after)
  {
    if w.count + 1 <= HELLOS_PER_IP {
      var after := times + [now];
      CountAdds(times, now, w.start, w.start + HELLO_WINDOW);
      forall low: int | w.start - HELLO_WINDOW < low <= w.start ensures Count(after, low, w.start) <= HELLOS_PER_IP {
        CountAdds(times, now, low, w.start);
      }
      forall low: int ensures From(after, low) <= 2 * HELLOS_PER_IP {
        CountAdds(times, now, low, low + HELLO_WINDOW);
        assert From(times, low) <= 2 * HELLOS_PER_IP;
        if low <= now < low + HELLO_WINDOW {
          InWindow(w, times, low);
        }
      }
    }
  }

  /** While the window has room, what an interval meeting it holds leaves room for one more. */
  lemma InWindow(w: Window, times: seq<int>, low: int)
    requires Tracks(w, times) && w.count < HELLOS_PER_IP && w.start - HELLO_WINDOW < low < w.start + HELLO_WINDOW
    ensures Count(times, low, low + HELLO_WINDOW) < 2 * HELLOS_PER_IP
  {
    var end := w.start + HELLO_WINDOW;
    if low <= w.start {
      CountSplits(times, low, w.start, low + HELLO_WINDOW);
      CountSplits(times, w.start, low + HELLO_WINDOW, end);
    } else {
      CountSplits(times, low, end, low + HELLO_WINDOW);
      CountNone(times, end, low + HELLO_WINDOW);
      CountSplits(times, w.start, low, end);
    }
  }

  /** The first hello ever, or after the window ran out, starts a new one and is admitted. */
  lemma NewWindow(w: Window, times: seq<int>, now: int)
    requires Tracks(w, times) && Limited(times) && now >= w.start + HELLO_WINDOW
    ensures Tracks(Window(now, 1), times + [now]) && Limited(times + [now])
  {
    var after := times + [now];
    var end := w.start + HELLO_WINDOW;
    CountNone(times, now, now + HELLO_WINDOW);
    CountAdds(times, now, now, now + HELLO_WINDOW);
    forall low: int | now - HELLO_WINDOW < low <= now ensures Count(times, low, now) <= HELLOS_PER_IP {
      AfterStart(w, times, low, now);
    }
    forall low: int | now - HELLO_WINDOW < low <= now ensures Count(after, low, now) <= HELLOS_PER_IP {
      CountAdds(times, now, low, now);
    }
    forall low: int ensures From(after, low) <= 2 * HELLOS_PER_IP {
      CountAdds(times, now, low, low + HELLO_WINDOW);
      assert From(times, low) <= 2 * HELLOS_PER_IP;
      if low <= now < low + HELLO_WINDOW {
        AfterStart(w, times, low, low + HELLO_WINDOW);
      }
    }
  }

  lemma AfterStart(w: Window, times: seq<int>, low: int, high: int)
    requires Tracks(w, times) && w.start <= low <= high
    ensures Count(times, low, high) <= HELLOS_PER_IP
  {
    var end := w.start + HELLO_WINDOW;
    if low >= end {
      CountNone(times, low, high);
    } else if high <= end {
      CountSplits(times, w.start, low, end);
      CountSplits(times, low, high, end);
    } else {
      CountSplits(times, low, end, high);
      CountNone(times, end, high);
      CountSplits(times, w.start, low, end);
    }
  }

  lemma FirstWindow(now: int)
    ensures Tracks(Window(now, 1), [now]) && Limited([now])
  {
    forall low: int ensures From([now], low) <= 2 * HELLOS_PER_IP { }
    forall low: int | now - HELLO_WINDOW < low <= now ensures Count([now], low, now) <= HELLOS_PER_IP { }
    assert Count([now], now, now + HELLO_WINDOW) == 1;
  }

  // ----- the table of all IPs

  /** What there is to know of an IP ever admitted: its last window and its admissions. */
  datatype Log = Log(window: Window, times: seq<int>)

  ghost predicate Sound(log: Log) {
    Tracks(log.window, log.times) && Limited(log.times)
  }

  /** The log after a hello at `now` that falls in its window, or starts a new one. */
  function Logged(log: Log, now: int): Log {
    var w := if now - log.window.start < HELLO_WINDOW then Window(log.window.start, log.window.count + 1) else Window(now, 1);
    Log(w, if w.count <= HELLOS_PER_IP then log.times + [now] else log.times)
  }

  lemma LoggedIsSound(log: Log, now: int)
    requires Sound(log) && now >= log.window.start
    ensures Sound(Logged(log, now))
  {
    if now - log.window.start < HELLO_WINDOW {
      SameWindow(log.window, log.times, now);
    } else {
      NewWindow(log.window, log.times, now);
    }
  }

  predicate IsLoopback(ip: Ip) {
    if ip.V4? then ip.bits / 0x100_0000 == 127 else ip.bits == 1
  }

  /** Loopback is 127.0.0.0/8 or ::1, and an IPv4-mapped loopback address counts. */
  lemma LoopbackExactly(ip: Ip)
    requires ip.bits < if ip.V4? then 0x1_0000_0000 else 0x1_0000_0000_0000_0000_0000_0000_0000_0000
    ensures IsLoopback(Canonical(ip)) <==>
      if ip.V4? then 0x7F00_0000 <= ip.bits <= 0x7FFF_FFFF
      else ip.bits == 1 || 0xFFFF_7F00_0000 <= ip.bits <= 0xFFFF_7FFF_FFFF
  {
  }

  type Hellos = map<Ip, Window>

  function Retained(hellos: Hellos, now: int): Hellos {
    map ip | ip in hellos && now - hellos[ip].start < HELLO_WINDOW :: hellos[ip]
  }

  /** A tracked IP's window is its last; one not tracked has none, or none still running. */
  ghost predicate Tracked(hellos: Hellos, logs: map<Ip, Log>, clock: int, ip: Ip) {
    if ip in logs
    then Sound(logs[ip]) && logs[ip].window.start <= clock
      && (if ip in hellos then hellos[ip] == logs[ip].window else clock - logs[ip].window.start >= HELLO_WINDOW)
    else ip !in hellos
  }

  lemma RetainedTracked(hellos: Hellos, logs: map<Ip, Log>, clock: int, now: int, ip: Ip)
    requires Tracked(hellos, logs, clock, ip) && now >= clock
    ensures Tracked(Retained(hellos, now), logs, now, ip) && Tracked(hellos, logs, now, ip)
    ensures |Retained(hellos, now)| <= |hellos|
  {
    var kept := Retained(hellos, now).Keys;
    assert hellos.Keys == kept + (hellos.Keys - kept);
  }

  function NextLog(logs: map<Ip, Log>, ip: Ip, now: int): Log {
    if ip in logs then Logged(logs[ip], now) else Log(Window(now, 1), [now])
  }

  lemma NextTracked(hellos: Hellos, logs: map<Ip, Log>, now: int, ip: Ip, other: Ip)
    requires Tracked(hellos, logs, now, ip) && Tracked(hellos, logs, now, other)
    requires ip in hellos ==> now - hellos[ip].start < HELLO_WINDOW
    ensures var log := NextLog(logs, ip, now);
      && Tracked(hellos[ip := log.window], logs[ip := log], now, other)
      && (ip in hellos ==> log.window == Window(hellos[ip].start, hellos[ip].count + 1))
      && (ip !in hellos ==> log.window == Window(now, 1))
  {
    if ip in logs { LoggedIsSound(logs[ip], now); } else { FirstWindow(now); }
  }

  ghost predicate AllTracked(hellos: Hellos, logs: map<Ip, Log>, clock: int) {
    |hellos| <= MAX_TRACKED_IPS && forall ip :: Tracked(hellos, logs, clock, ip)
  }

  lemma AllRetained(hellos: Hellos, logs: map<Ip, Log>, clock: int, now: int)
    requires AllTracked(hellos, logs, clock) && now >= clock
    ensures AllTracked(hellos, logs, now) && AllTracked(Retained(hellos, now), logs, now)
  {
    forall ip ensures Tracked(Retained(hellos, now), logs, now, ip) && Tracked(hellos, logs, now, ip) {
      RetainedTracked(hellos, logs, clock, now, ip);
    }
    var kept := Retained(hellos, now).Keys;
    assert hellos.Keys == kept + (hellos.Keys - kept);
  }

  lemma AllNext(hellos: Hellos, logs: map<Ip, Log>, now: int, ip: Ip, w: Window)
    requires AllTracked(hellos, logs, now) && (ip in hellos || |hellos| < MAX_TRACKED_IPS)
    requires ip in hellos ==> now - hellos[ip].start < HELLO_WINDOW
    requires w == if ip in hellos then Window(hellos[ip].start, hellos[ip].count + 1) else Window(now, 1)
    ensures AllTracked(hellos[ip := w], logs[ip := NextLog(logs, ip, now)], now)
    ensures NextLog(logs, ip, now).window == w && (w.count <= HELLOS_PER_IP ==> now in NextLog(logs, ip, now).times)
  {
    NextTracked(hellos, logs, now, ip, ip);
    var (hellos', logs') := (hellos[ip := w], logs[ip := NextLog(logs, ip, now)]);
    forall other ensures Tracked(hellos', logs', now, other) {
      NextTracked(hellos, logs, now, ip, other);
    }
    assert hellos'.Keys == hellos.Keys + {ip};
  }

  /** The hellos table of Neighbors; `logs` remembers every IP ever admitted. */
  class HelloTable {
    var hellos: Hellos
    ghost var logs: map<Ip, Log>
    ghost var clock: int

    ghost predicate Valid()
      reads this
    {
      AllTracked(hellos, logs, clock)
    }

    constructor (now: int)
      ensures Valid() && logs == map[] && clock == now
    {
      hellos, logs, clock := map[], map[], now;
    }

    /**
     Whether to answer one more hello from `from`, and whether it was turned
     away for want of room. Only an answered one is an admission.
     */
    method AllowHello(from: Ip, local: set<Ip>, now: int) returns (ok: bool, turnedAway: bool)
      requires Valid() && now >= clock
      modifies this
      ensures Valid() && clock == now
      ensures IsLoopback(Canonical(from)) || Canonical(from) in local ==> !ok && !turnedAway && hellos == old(hellos) && logs == old(logs)
      ensures turnedAway ==> !ok && logs == old(logs) && Canonical(from) !in hellos && |hellos| == MAX_TRACKED_IPS
      ensures !turnedAway && !IsLoopback(Canonical(from)) && Canonical(from) !in local ==>
        logs == old(logs)[Canonical(from) := NextLog(old(logs), Canonical(from), now)]
      ensures !turnedAway && !IsLoopback(Canonical(from)) && Canonical(from) !in local ==>
        (ok <==> logs[Canonical(from)].window.count <= 5)
      ensures turnedAway <==>
        (!IsLoopback(Canonical(from)) && Canonical(from) !in local
         && Canonical(from) !in Retained(old(hellos), now) && |Retained(old(hellos), now)| >= MAX_TRACKED_IPS)
      ensures ok ==> Canonical(from) in logs && now in logs[Canonical(from)].times
    {
      var ip := Canonical(from);
      AllRetained(hellos, logs, clock, now);
      clock := now;
      if IsLoopback(ip) || ip in local {
        return false, false;
      }
      hellos := Retained(hellos, now);
      if ip !in hellos && |hellos| >= MAX_TRACKED_IPS {
        return false, true;
      }
      var w := if ip in hellos then Window(hellos[ip].start, hellos[ip].count + 1) else Window(now, 1);
      AllNext(hellos, logs, now, ip, w);
      hellos, logs := hellos[ip := w], logs[ip := NextLog(logs, ip, now)];
      return w.count <= HELLOS_PER_IP, false;
    }
  }

  /** Whatever was asked, no IP was admitted more than twice its share in any window-long interval. */
  lemma AdmissionsAreLimited(table: HelloTable, ip: Ip, low: int)
    requires table.Valid() && ip in table.logs
    ensures Count(table.logs[ip].times, low, low + 30_000) <= 10 && |table.hellos| <= 64
  {
    assert Tracked(table.hellos, table.logs, table.clock, ip);
    assert From(table.logs[ip].times, low) <= 2 * HELLOS_PER_IP;
  }
}
