/**
 How paired computers come to keep one arrangement (merge_layout, keep_layout
 and offer_layout in src/daemon.rs). Every await between reading the kept
 layout, replacing it, listing the sessions and sending is a separate step, so
 runs here are the interleavings of all the tasks of all the computers.
 */
module Gossip {
  import opened Wrappers
  import opened Tiles

  type Computer = string
  type Wire = nat

  /** What a task of one computer has still to do. */
  datatype Task =
    | Keep(layout: SharedLayout, origin: Option<Wire>)  // keep_layout, up to replacing the kept layout
    | Broadcast(skip: Option<Wire>)                     // the rest of keep_layout: list the sessions
    | Offer(wire: Wire)                                 // offer_layout to one of them

  /** `tasks` holds one of each kind of task; a step that runs it says whether another like it is left. */
  datatype Host = Host(kept: Option<SharedLayout>, sessions: map<Computer, Wire>, tasks: set<Task>)

  /** A connection, and the layouts on their way to each of its two ends. */
  datatype Link = Link(ends: (Computer, Computer), alive: bool, toFirst: seq<SharedLayout>, toSecond: seq<SharedLayout>) {
    predicate Joins(c: Computer) { c == ends.0 || c == ends.1 }
    function Other(c: Computer): Computer { if c == ends.0 then ends.1 else ends.0 }
    function Inbox(c: Computer): seq<SharedLayout> { if c == ends.0 then toFirst else toSecond }
    function WithInbox(c: Computer, inbox: seq<SharedLayout>): Link {
      if c == ends.0 then this.(toFirst := inbox) else this.(toSecond := inbox)
    }
  }

  /** `log` remembers every layout any computer ever kept; no step reads it. */
  datatype State = State(hosts: map<Computer, Host>, links: map<Wire, Link>, log: set<SharedLayout>)

  datatype Step =
    | Connect(wire: Wire, first: Computer, second: Computer)
    | Register(at: Computer, wire: Wire)    // a session enters `sessions` and is offered the layout
    | Unregister(at: Computer, wire: Wire)  // its Closed event
    | Break(wire: Wire)                     // what has arrived already may still be handled
    | Lose(at: Computer, wire: Wire)        // what was on its way over a broken wire is gone
    | Restart(at: Computer)                 // reads back what it kept; its connections are gone
    | Edit(at: Computer, layout: SharedLayout)
    | Receive(at: Computer, wire: Wire)     // merge_layout, up to keep_layout
    | RunKeep(at: Computer, task: Task, again: bool)
    | RunBroadcast(at: Computer, task: Task, again: bool)
    | RunOffer(at: Computer, task: Task, again: bool)

  // ----- the order of layouts

  /** `b` is at least as new as `a`; having none is oldest. */
  predicate UpTo(a: Option<SharedLayout>, b: Option<SharedLayout>) {
    a.None? || (b.Some? && !a.value.IsNewerThan(b.value))
  }

  lemma {:induction false} StringOrder(a: string, b: string)
    ensures a == b || StringLess(a, b) || StringLess(b, a)
    ensures !(StringLess(a, b) && StringLess(b, a))
    ensures a == b ==> !StringLess(a, b)
    decreases |a|
  {
    if a != [] && b != [] {
      StringOrder(a[1..], b[1..]);
      if a[1..] == b[1..] && a[0] == b[0] {
        assert a == [a[0]] + a[1..] == b;
      }
    }
  }

  lemma {:induction false} StringTransitive(a: string, b: string, c: string)
    requires StringLess(a, b) && StringLess(b, c)
    ensures StringLess(a, c)
    decreases |a|
  {
    if a != [] && a[0] == b[0] == c[0] {
      StringTransitive(a[1..], b[1..], c[1..]);
    }
  }

  lemma UpToTransitive(a: Option<SharedLayout>, b: Option<SharedLayout>, c: Option<SharedLayout>)
    requires UpTo(a, b) && UpTo(b, c)
    ensures UpTo(a, c)
  {
    if a.Some? {
      StringOrder(a.value.editor, b.value.editor);
      StringOrder(b.value.editor, c.value.editor);
      StringOrder(a.value.editor, c.value.editor);
      if StringLess(a.value.editor, b.value.editor) && StringLess(b.value.editor, c.value.editor) {
        StringTransitive(a.value.editor, b.value.editor, c.value.editor);
      }
    }
  }

  /** Of two layouts one is newer, unless they carry the same stamp. */
  lemma NewerIsTotal(a: SharedLayout, b: SharedLayout)
    ensures UpTo(Some(a), Some(b)) || UpTo(Some(b), Some(a))
    ensures a.IsNewerThan(b) ==> UpTo(Some(b), Some(a))
    ensures UpTo(Some(a), Some(b)) && UpTo(Some(b), Some(a)) <==> (a.version, a.editor) == (b.version, b.editor)
  {
    StringOrder(a.editor, b.editor);
  }

  // ----- the steps

  predicate Joined(s: State, c: Computer, w: Wire) {
    c in s.hosts && w in s.links && s.links[w].Joins(c)
  }

  function WithHost(s: State, c: Computer, h: Host): State {
    s.(hosts := s.hosts[c := h])
  }

  function WithTask(h: Host, task: Task): Host {
    h.(tasks := h.tasks + {task})
  }

  function Offers(wires: set<Wire>): set<Task> {
    set w | w in wires :: Offer(w)
  }

  /** What one task does, given that it is this host's. */
  function Ran(s: State, c: Computer, task: Task, again: bool): State
    requires c in s.hosts && task in s.hosts[c].tasks
  {
    var h := if again then s.hosts[c] else s.hosts[c].(tasks := s.hosts[c].tasks - {task});
    match task
    case Keep(layout, origin) =>
      if h.kept.Some? && !layout.IsNewerThan(h.kept.value) then WithHost(s, c, h)
      else WithHost(s, c, WithTask(h.(kept := Some(layout)), Broadcast(origin))).(log := s.log + {layout})
    case Broadcast(skip) =>
      var others := set w | w in h.sessions.Values && Some(w) != skip;
      WithHost(s, c, h.(tasks := h.tasks + Offers(others)))
    case Offer(w) =>
      var sent := WithHost(s, c, h);
      if h.kept.Some? && Joined(s, c, w) && s.links[w].alive then
        var to := s.links[w].Other(c);
        sent.(links := s.links[w := s.links[w].WithInbox(to, s.links[w].Inbox(to) + [h.kept.value])])
      else sent
  }

  /** A layout arrives: an older one is answered with the newer, else it is to be kept. */
  function Merged(h: Host, from: Computer, w: Wire, layout: SharedLayout): Host {
    if h.kept.Some? && !layout.IsNewerThan(h.kept.value) then
      if h.kept.value.IsNewerThan(layout) && from in h.sessions && h.sessions[from] == w then WithTask(h, Offer(w)) else h
    else WithTask(h, Keep(layout, Some(w)))
  }

  /** The state after `step`; a step that cannot happen changes nothing. */
  function Next(s: State, step: Step): State {
    match step
    case Connect(w, a, b) =>
      if w in s.links || a == b || a !in s.hosts || b !in s.hosts then s
      else s.(links := s.links[w := Link((a, b), true, [], [])])
    case Register(c, w) =>
      if !Joined(s, c, w) || !s.links[w].alive then s
      else
        var h := s.hosts[c];
        WithHost(s, c, WithTask(h.(sessions := h.sessions[s.links[w].Other(c) := w]), Offer(w)))
    case Unregister(c, w) =>
      if !Joined(s, c, w) then s
      else
        var (h, peer) := (s.hosts[c], s.links[w].Other(c));
        if peer in h.sessions && h.sessions[peer] == w then WithHost(s, c, h.(sessions := h.sessions - {peer})) else s
    case Break(w) =>
      if w !in s.links then s else s.(links := s.links[w := s.links[w].(alive := false)])
    case Lose(c, w) =>
      if !Joined(s, c, w) || s.links[w].alive then s else s.(links := s.links[w := s.links[w].WithInbox(c, [])])
    case Restart(c) =>
      if c !in s.hosts then s
      else State(s.hosts[c := Host(s.hosts[c].kept, map[], {})],
                 map w | w in s.links :: if s.links[w].Joins(c) then s.links[w].WithInbox(c, []).(alive := false) else s.links[w],
                 s.log)
    case Edit(c, layout) =>
      if c !in s.hosts || layout.editor != c then s
      else WithHost(s, c, WithTask(s.hosts[c], Keep(layout, None)))
    case Receive(c, w) =>
      if !Joined(s, c, w) || s.links[w].Inbox(c) == [] then s
      else
        var inbox := s.links[w].Inbox(c);
        WithHost(s, c, Merged(s.hosts[c], s.links[w].Other(c), w, inbox[0]))
          .(links := s.links[w := s.links[w].WithInbox(c, inbox[1..])])
    case RunKeep(c, task, again) =>
      if c in s.hosts && task in s.hosts[c].tasks && task.Keep? then Ran(s, c, task, again) else s
    case RunBroadcast(c, task, again) =>
      if c in s.hosts && task in s.hosts[c].tasks && task.Broadcast? then Ran(s, c, task, again) else s
    case RunOffer(c, task, again) =>
      if c in s.hosts && task in s.hosts[c].tasks && task.Offer? then Ran(s, c, task, again) else s
  }

  /** Computers that keep nothing yet and have no connections. */
  predicate Initial(s: State) {
    && (forall c :: c in s.hosts ==> s.hosts[c] == Host(None, map[], {}))
    && s.links == map[] && s.log == {}
  }

  function Run(s: State, steps: seq<Step>): State {
    if steps == [] then s else Next(Run(s, steps[..|steps| - 1]), steps[|steps| - 1])
  }
}
