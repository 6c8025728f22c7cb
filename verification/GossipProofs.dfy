/** In every run, stamps identify layouts, and connected computers end up keeping the same one. */
module GossipProofs {
  import opened Wrappers
  import opened Tiles
  import opened Gossip

  // ----- what every reachable state satisfies

  predicate LinkShaped(s: State, w: Wire)
    requires w in s.links
  {
    var link := s.links[w];
    link.ends.0 != link.ends.1 && link.ends.0 in s.hosts && link.ends.1 in s.hosts
  }

  predicate SessionShaped(s: State, c: Computer, peer: Computer)
    requires c in s.hosts && peer in s.hosts[c].sessions
  {
    var w := s.hosts[c].sessions[peer];
    Joined(s, c, w) && s.links[w].Other(c) == peer
  }

  /** A layout to keep was made here or came over one of this computer's wires. */
  predicate TaskShaped(s: State, c: Computer, task: Task) {
    task.Keep? ==> if task.origin.None? then task.layout.editor == c else Joined(s, c, task.origin.value)
  }

  ghost predicate Shaped(s: State) {
    && (forall w :: w in s.links ==> LinkShaped(s, w))
    && (forall c, peer :: c in s.hosts && peer in s.hosts[c].sessions ==> SessionShaped(s, c, peer))
    && (forall c, task :: c in s.hosts && task in s.hosts[c].tasks ==> TaskShaped(s, c, task))
  }

  /** `layout` is on its way to `c` over `w`: sent and not merged yet, or merged and not kept yet. */
  predicate Coming(s: State, c: Computer, w: Wire, layout: SharedLayout) {
    Joined(s, c, w) && (layout in s.links[w].Inbox(c) || Keep(layout, Some(w)) in s.hosts[c].tasks)
  }

  /** What the computer at the other end of `w` from `c` keeps. */
  function SenderKept(s: State, c: Computer, w: Wire): Option<SharedLayout>
    requires Joined(s, c, w) && LinkShaped(s, w)
  {
    s.hosts[s.links[w].Other(c)].kept
  }

  /** Nothing on its way is newer than what its sender keeps. */
  ghost predicate Sourced(s: State)
    requires Shaped(s)
  {
    forall c, w, layout :: Coming(s, c, w, layout) ==> UpTo(Some(layout), SenderKept(s, c, w))
  }

  /** Every layout about was once kept, and stamps in the log identify layouts. */
  ghost predicate Logged(s: State) {
    && (forall c, w, layout :: Coming(s, c, w, layout) ==> layout in s.log)
    && (forall c :: c in s.hosts && s.hosts[c].kept.Some? ==> s.hosts[c].kept.value in s.log)
    && (forall a :: a in s.log ==> a.editor in s.hosts && UpTo(Some(a), s.hosts[a.editor].kept))
    && (forall a, b :: a in s.log && b in s.log && a.version == b.version && a.editor == b.editor ==> a == b)
  }

  /** If `c` keeps a newer layout than its peer on `w`, the peer is going to get it. */
  ghost predicate Owing(s: State, c: Computer, w: Wire)
    requires Joined(s, c, w) && s.links[w].Other(c) in s.hosts
  {
    var (h, peer) := (s.hosts[c], s.links[w].Other(c));
    || UpTo(h.kept, s.hosts[peer].kept)
    || Coming(s, peer, w, h.kept.value)
    || Offer(w) in h.tasks
    || exists skip: Option<Wire> :: skip != Some(w) && Broadcast(skip) in h.tasks
  }

  ghost predicate Owed(s: State)
    requires Shaped(s)
  {
    forall c, peer :: c in s.hosts && peer in s.hosts[c].sessions && s.links[s.hosts[c].sessions[peer]].alive ==>
      Owing(s, c, s.hosts[c].sessions[peer])
  }

  ghost predicate Inv(s: State) {
    Shaped(s) && Sourced(s) && Logged(s) && Owed(s)
  }

  // ----- each step keeps it

  lemma HostsStay(s: State, step: Step)
    ensures Next(s, step).hosts.Keys == s.hosts.Keys
  {
  }

  lemma LinksStay(s: State, step: Step, w: Wire)
    ensures w in s.links ==> w in Next(s, step).links && Next(s, step).links[w].ends == s.links[w].ends
    ensures w in Next(s, step).links && w !in s.links ==> step == Connect(w, step.first, step.second)
  {
  }

  lemma LinkShapedStays(s: State, step: Step, w: Wire)
    requires Shaped(s) && w in Next(s, step).links
    ensures LinkShaped(Next(s, step), w)
  {
    HostsStay(s, step);
    if w in s.links { assert LinkShaped(s, w); }
  }

  lemma SessionsFrom(s: State, step: Step, c: Computer, peer: Computer)
    requires c in s.hosts && c in Next(s, step).hosts && peer in Next(s, step).hosts[c].sessions
    ensures var w := Next(s, step).hosts[c].sessions[peer];
      || (peer in s.hosts[c].sessions && s.hosts[c].sessions[peer] == w)
      || (step == Register(c, w) && Joined(s, c, w) && s.links[w].Other(c) == peer && Offer(w) in Next(s, step).hosts[c].tasks)
  {
  }

  lemma SessionShapedStays(s: State, step: Step, c: Computer, peer: Computer)
    requires Shaped(s) && c in Next(s, step).hosts && peer in Next(s, step).hosts[c].sessions
    ensures SessionShaped(Next(s, step), c, peer)
  {
    HostsStay(s, step);
    SessionsFrom(s, step, c, peer);
    LinksStay(s, step, Next(s, step).hosts[c].sessions[peer]);
    if peer in s.hosts[c].sessions { assert SessionShaped(s, c, peer); }
  }

  /** A layout is about to be kept here only if it was already, was edited here, or was merged. */
  lemma TasksFrom(s: State, step: Step, c: Computer, task: Task)
    requires c in s.hosts && c in Next(s, step).hosts && task in Next(s, step).hosts[c].tasks && task.Keep?
    ensures task in s.hosts[c].tasks
         || (task.origin.None? && task.layout.editor == c)
         || (task.origin.Some? && Joined(s, c, task.origin.value) && task.layout in s.links[task.origin.value].Inbox(c))
  {
  }

  lemma TaskShapedStays(s: State, step: Step, c: Computer, task: Task)
    requires Shaped(s) && c in Next(s, step).hosts && task in Next(s, step).hosts[c].tasks
    ensures TaskShaped(Next(s, step), c, task)
  {
    HostsStay(s, step);
    if task.Keep? {
      TasksFrom(s, step, c, task);
      assert task in s.hosts[c].tasks ==> TaskShaped(s, c, task);
      if task.origin.Some? { LinksStay(s, step, task.origin.value); }
    }
  }

  lemma ShapedStays(s: State, step: Step)
    requires Shaped(s)
    ensures Shaped(Next(s, step))
  {
    var t := Next(s, step);
    forall w | w in t.links ensures LinkShaped(t, w) { LinkShapedStays(s, step, w); }
    forall c, peer | c in t.hosts && peer in t.hosts[c].sessions ensures SessionShaped(t, c, peer) {
      SessionShapedStays(s, step, c, peer);
    }
    forall c, task | c in t.hosts && task in t.hosts[c].tasks ensures TaskShaped(t, c, task) {
      TaskShapedStays(s, step, c, task);
    }
  }

  /** A computer never goes back to an older layout. */
  lemma KeptGrows(s: State, step: Step, c: Computer)
    requires c in s.hosts
    ensures c in Next(s, step).hosts && UpTo(s.hosts[c].kept, Next(s, step).hosts[c].kept)
  {
    HostsStay(s, step);
    if s.hosts[c].kept.Some? {
      NewerIsTotal(s.hosts[c].kept.value, s.hosts[c].kept.value);
      if step.RunKeep? && step.task.Keep? {
        NewerIsTotal(step.task.layout, s.hosts[c].kept.value);
      }
    }
  }

  lemma InboxFrom(s: State, step: Step, c: Computer, w: Wire, layout: SharedLayout)
    requires Shaped(s) && Joined(Next(s, step), c, w) && layout in Next(s, step).links[w].Inbox(c)
    ensures Joined(s, c, w) && (layout in s.links[w].Inbox(c) || SenderKept(s, c, w) == Some(layout))
  {
    HostsStay(s, step);
    LinksStay(s, step, w);
    if w in s.links { assert LinkShaped(s, w); }
  }

  /** Whatever is on its way already was, or is what its sender keeps. */
  lemma ComingFrom(s: State, step: Step, c: Computer, w: Wire, layout: SharedLayout)
    requires Shaped(s) && Coming(Next(s, step), c, w, layout)
    ensures Joined(s, c, w) && (Coming(s, c, w, layout) || SenderKept(s, c, w) == Some(layout))
  {
    if layout in Next(s, step).links[w].Inbox(c) {
      InboxFrom(s, step, c, w, layout);
    } else {
      HostsStay(s, step);
      var task := Keep(layout, Some(w));
      TasksFrom(s, step, c, task);
      assert task in s.hosts[c].tasks ==> TaskShaped(s, c, task);
    }
  }

  lemma SourcedStays(s: State, step: Step)
    requires Shaped(s) && Sourced(s) && Shaped(Next(s, step))
    ensures Sourced(Next(s, step))
  {
    var t := Next(s, step);
    forall c, w, layout | Coming(t, c, w, layout) ensures UpTo(Some(layout), SenderKept(t, c, w)) {
      ComingFrom(s, step, c, w, layout);
      LinksStay(s, step, w);
      assert LinkShaped(s, w);
      KeptGrows(s, step, s.links[w].Other(c));
      NewerIsTotal(layout, layout);
      UpToTransitive(Some(layout), SenderKept(s, c, w), SenderKept(t, c, w));
    }
  }

  /** The log grows only by a layout some computer now keeps and had a task to keep. */
  lemma LogFrom(s: State, step: Step, layout: SharedLayout)
    requires layout in Next(s, step).log && layout !in s.log
    ensures step.RunKeep? && step.at in s.hosts && step.task in s.hosts[step.at].tasks
    ensures step.task.Keep? && step.task.layout == layout
    ensures UpTo(s.hosts[step.at].kept, Some(layout)) && Next(s, step).hosts[step.at].kept == Some(layout)
    ensures s.hosts[step.at].kept.Some? ==> layout.IsNewerThan(s.hosts[step.at].kept.value)
  {
    if s.hosts[step.at].kept.Some? {
      NewerIsTotal(layout, s.hosts[step.at].kept.value);
    }
  }

  lemma LogGrows(s: State, step: Step)
    ensures s.log <= Next(s, step).log
    ensures forall c :: c in Next(s, step).hosts && c in s.hosts && Next(s, step).hosts[c].kept != s.hosts[c].kept ==>
      Next(s, step).hosts[c].kept.Some? && Next(s, step).hosts[c].kept.value in Next(s, step).log
  {
  }

  /** A layout new to the log was made by the computer that keeps it, so its stamp is new too. */
  lemma NewInLog(s: State, step: Step, layout: SharedLayout)
    requires Shaped(s) && Sourced(s) && Logged(s) && layout in Next(s, step).log && layout !in s.log
    ensures layout.editor in s.hosts && layout.editor in Next(s, step).hosts
    ensures Next(s, step).hosts[layout.editor].kept == Some(layout)
    ensures forall other :: other in s.log ==> (other.version, other.editor) != (layout.version, layout.editor)
  {
    LogFrom(s, step, layout);
    HostsStay(s, step);
    var c := step.at;
    assert TaskShaped(s, c, step.task);
    if step.task.origin.Some? {
      assert Coming(s, c, step.task.origin.value, layout);
      assert false;
    }
    forall other | other in s.log ensures (other.version, other.editor) != (layout.version, layout.editor) {
      if (other.version, other.editor) == (layout.version, layout.editor) {
        NewerIsTotal(other, layout);
        UpToTransitive(Some(layout), Some(other), s.hosts[c].kept);
      }
    }
  }

  lemma LoggedStays(s: State, step: Step)
    requires Shaped(s) && Sourced(s) && Logged(s)
    ensures Logged(Next(s, step))
  {
    var t := Next(s, step);
    LogGrows(s, step);
    HostsStay(s, step);
    forall c, w, layout | Coming(t, c, w, layout) ensures layout in t.log {
      ComingFrom(s, step, c, w, layout);
      assert LinkShaped(s, w);
    }
    forall a | a in t.log ensures a.editor in t.hosts && UpTo(Some(a), t.hosts[a.editor].kept) {
      if a in s.log {
        KeptGrows(s, step, a.editor);
        UpToTransitive(Some(a), s.hosts[a.editor].kept, t.hosts[a.editor].kept);
      } else {
        NewInLog(s, step, a);
        NewerIsTotal(a, a);
      }
    }
    forall a, b | a in t.log && b in t.log && a.version == b.version && a.editor == b.editor ensures a == b {
      if a !in s.log { NewInLog(s, step, a); if b !in s.log { NewInLog(s, step, b); } }
      else if b !in s.log { NewInLog(s, step, b); }
    }
  }

  // ----- whoever keeps a newer layout is still going to send it

  /** A layout on its way over a live wire stays so until its receiver keeps one as new. */
  lemma ComingGoes(s: State, step: Step, c: Computer, w: Wire, layout: SharedLayout)
    requires Shaped(s) && Coming(s, c, w, layout)
    requires w in Next(s, step).links && Next(s, step).links[w].alive && c in Next(s, step).hosts
    ensures Coming(Next(s, step), c, w, layout) || UpTo(Some(layout), Next(s, step).hosts[c].kept)
  {
    assert LinkShaped(s, w);
    NewerIsTotal(layout, layout);
    if layout in s.links[w].Inbox(c) {
      InboxGoes(s, step, c, w, layout);
    } else {
      KeepGoes(s, step, c, w, layout);
    }
  }

  lemma InboxGoes(s: State, step: Step, c: Computer, w: Wire, layout: SharedLayout)
    requires Joined(s, c, w) && layout in s.links[w].Inbox(c) && LinkShaped(s, w)
    requires w in Next(s, step).links && Next(s, step).links[w].alive && c in Next(s, step).hosts
    ensures Coming(Next(s, step), c, w, layout) || UpTo(Some(layout), Next(s, step).hosts[c].kept)
  {
    LinksStay(s, step, w);
    if step == Receive(c, w) && s.links[w].Inbox(c)[0] != layout {
      var inbox := s.links[w].Inbox(c);
      assert inbox == [inbox[0]] + inbox[1..];
    }
  }

  lemma KeepGoes(s: State, step: Step, c: Computer, w: Wire, layout: SharedLayout)
    requires Joined(s, c, w) && Keep(layout, Some(w)) in s.hosts[c].tasks
    requires w in Next(s, step).links && Next(s, step).links[w].alive && c in Next(s, step).hosts
    ensures Coming(Next(s, step), c, w, layout) || UpTo(Some(layout), Next(s, step).hosts[c].kept)
  {
    LinksStay(s, step, w);
    NewerIsTotal(layout, layout);
  }

  /** A task is gone only once it has run, or with its process. */
  lemma TaskStays(s: State, step: Step, c: Computer, task: Task)
    requires c in s.hosts && c in Next(s, step).hosts && task in s.hosts[c].tasks
    requires !(step.Restart? && step.at == c)
    requires !((step.RunKeep? || step.RunBroadcast? || step.RunOffer?) && step.at == c && step.task == task)
    ensures task in Next(s, step).hosts[c].tasks
  {
  }

  lemma OfferSends(s: State, c: Computer, w: Wire, again: bool)
    requires Joined(s, c, w) && LinkShaped(s, w) && Offer(w) in s.hosts[c].tasks && s.hosts[c].kept.Some? && s.links[w].alive
    ensures Coming(Next(s, RunOffer(c, Offer(w), again)), s.links[w].Other(c), w, s.hosts[c].kept.value)
  {
    var peer := s.links[w].Other(c);
    var inbox := s.links[w].Inbox(peer) + [s.hosts[c].kept.value];
    assert Next(s, RunOffer(c, Offer(w), again)).links[w] == s.links[w].WithInbox(peer, inbox);
    assert inbox[|inbox| - 1] == s.hosts[c].kept.value;
  }

  /** An offer still to be made stays so, or the layout kept is now on its way. */
  lemma OfferGoes(s: State, step: Step, c: Computer, w: Wire)
    requires Joined(s, c, w) && LinkShaped(s, w) && Offer(w) in s.hosts[c].tasks && s.hosts[c].kept.Some? && s.links[w].alive
    requires !(step.Restart? && step.at == c) && c in Next(s, step).hosts
    ensures Offer(w) in Next(s, step).hosts[c].tasks || Coming(Next(s, step), s.links[w].Other(c), w, s.hosts[c].kept.value)
  {
    if step.RunOffer? && step.at == c && step.task == Offer(w) {
      OfferSends(s, c, w, step.again);
    } else if !((step.RunKeep? || step.RunBroadcast?) && step.at == c && step.task == Offer(w)) {
      TaskStays(s, step, c, Offer(w));
    }
  }

  lemma BroadcastGoes(s: State, step: Step, c: Computer, peer: Computer, skip: Option<Wire>)
    requires c in s.hosts && peer in s.hosts[c].sessions && Broadcast(skip) in s.hosts[c].tasks
    requires skip != Some(s.hosts[c].sessions[peer]) && !(step.Restart? && step.at == c) && c in Next(s, step).hosts
    ensures Broadcast(skip) in Next(s, step).hosts[c].tasks || Offer(s.hosts[c].sessions[peer]) in Next(s, step).hosts[c].tasks
  {
    if step.RunBroadcast? && step.at == c && step.task == Broadcast(skip) {
      var h := s.hosts[c];
      var others := set w | w in h.sessions.Values && Some(w) != skip;
      assert h.sessions[peer] in others;
      assert Offer(h.sessions[peer]) in Offers(others);
    } else if !((step.RunKeep? || step.RunOffer?) && step.at == c && step.task == Broadcast(skip)) {
      TaskStays(s, step, c, Broadcast(skip));
    }
  }

  lemma KeptFrom(s: State, step: Step, c: Computer)
    requires c in s.hosts && c in Next(s, step).hosts && Next(s, step).hosts[c].kept != s.hosts[c].kept
    ensures step.RunKeep? && step.at == c && step.task.Keep? && step.task in s.hosts[c].tasks
  {
  }

  /** Keeping another layout always leaves word of it to be sent, except to where it came from. */
  lemma KeepAnnounces(s: State, step: Step, c: Computer)
    requires c in s.hosts && c in Next(s, step).hosts && Next(s, step).hosts[c].kept != s.hosts[c].kept
    ensures step.RunKeep? && step.at == c && step.task.Keep? && step.task in s.hosts[c].tasks
    ensures Next(s, step).hosts[c].kept == Some(step.task.layout)
    ensures Broadcast(step.task.origin) in Next(s, step).hosts[c].tasks
    ensures forall other :: other in s.hosts && other != c ==> other in Next(s, step).hosts && Next(s, step).hosts[other] == s.hosts[other]
  {
    KeptFrom(s, step, c);
  }

  lemma AliveBefore(s: State, step: Step, w: Wire)
    requires w in s.links && w in Next(s, step).links && Next(s, step).links[w].alive
    ensures s.links[w].alive
  {
  }

  /** A computer that still has a session did not restart. */
  lemma SessionsOutliveNoRestart(s: State, step: Step, c: Computer, peer: Computer)
    requires c in Next(s, step).hosts && peer in Next(s, step).hosts[c].sessions && c in s.hosts
    ensures !(step.Restart? && step.at == c)
  {
  }

  /** Before and after a step, `w` is a live wire from `c` to `peer`. */
  ghost predicate Spans(s: State, step: Step, c: Computer, peer: Computer, w: Wire) {
    var t := Next(s, step);
    && Joined(s, c, w) && Joined(t, c, w) && s.links[w].Other(c) == peer == t.links[w].Other(c)
    && peer in s.hosts && peer in t.hosts && peer != c
    && s.links[w].alive && t.links[w].alive && LinkShaped(s, w)
    && !(step.Restart? && step.at == c)
  }

  lemma OwingAfterKeep(s: State, step: Step, c: Computer, peer: Computer, w: Wire)
    requires Spans(s, step, c, peer, w) && Next(s, step).hosts[c].kept != s.hosts[c].kept
    requires forall layout :: Coming(s, c, w, layout) ==> UpTo(Some(layout), s.hosts[peer].kept)
    ensures Owing(Next(s, step), c, w)
  {
    KeepAnnounces(s, step, c);
    if step.task.origin == Some(w) {
      assert Coming(s, c, w, step.task.layout);
    }
  }

  lemma OwingUpTo(s: State, step: Step, c: Computer, peer: Computer, w: Wire)
    requires Spans(s, step, c, peer, w) && Next(s, step).hosts[c].kept == s.hosts[c].kept
    requires UpTo(s.hosts[c].kept, s.hosts[peer].kept) && UpTo(s.hosts[peer].kept, Next(s, step).hosts[peer].kept)
    ensures Owing(Next(s, step), c, w)
  {
    UpToTransitive(s.hosts[c].kept, s.hosts[peer].kept, Next(s, step).hosts[peer].kept);
  }

  lemma OwingComing(s: State, step: Step, c: Computer, peer: Computer, w: Wire)
    requires Shaped(s) && Spans(s, step, c, peer, w) && Next(s, step).hosts[c].kept == s.hosts[c].kept
    requires s.hosts[c].kept.Some? && Coming(s, peer, w, s.hosts[c].kept.value)
    ensures Owing(Next(s, step), c, w)
  {
    ComingGoes(s, step, peer, w, s.hosts[c].kept.value);
  }

  lemma OwingOffer(s: State, step: Step, c: Computer, peer: Computer, w: Wire)
    requires Spans(s, step, c, peer, w) && Next(s, step).hosts[c].kept == s.hosts[c].kept
    requires s.hosts[c].kept.Some? && Offer(w) in s.hosts[c].tasks
    ensures Owing(Next(s, step), c, w)
  {
    OfferGoes(s, step, c, w);
  }

  lemma OwingBroadcast(s: State, step: Step, c: Computer, peer: Computer, w: Wire, skip: Option<Wire>)
    requires Spans(s, step, c, peer, w) && Next(s, step).hosts[c].kept == s.hosts[c].kept
    requires peer in s.hosts[c].sessions && s.hosts[c].sessions[peer] == w
    requires skip != Some(w) && Broadcast(skip) in s.hosts[c].tasks
    ensures Owing(Next(s, step), c, w)
  {
    BroadcastGoes(s, step, c, peer, skip);
  }

  lemma SpansFrom(s: State, step: Step, c: Computer, peer: Computer, w: Wire)
    requires Shaped(s) && Shaped(Next(s, step))
    requires c in s.hosts && peer in s.hosts[c].sessions && s.hosts[c].sessions[peer] == w
    requires c in Next(s, step).hosts && peer in Next(s, step).hosts[c].sessions && Next(s, step).hosts[c].sessions[peer] == w
    requires Next(s, step).links[w].alive
    ensures Spans(s, step, c, peer, w)
  {
    SessionsOutliveNoRestart(s, step, c, peer);
    assert SessionShaped(s, c, peer) && LinkShaped(s, w);
    assert SessionShaped(Next(s, step), c, peer);
    LinksStay(s, step, w);
    HostsStay(s, step);
    AliveBefore(s, step, w);
  }

  lemma OwingCases(s: State, step: Step, c: Computer, peer: Computer, w: Wire)
    requires Shaped(s) && Spans(s, step, c, peer, w) && Owing(s, c, w)
    requires peer in s.hosts[c].sessions && s.hosts[c].sessions[peer] == w
    requires forall layout :: Coming(s, c, w, layout) ==> UpTo(Some(layout), s.hosts[peer].kept)
    ensures Owing(Next(s, step), c, w)
  {
    var kept := s.hosts[c].kept;
    if Next(s, step).hosts[c].kept != kept {
      OwingAfterKeep(s, step, c, peer, w);
    } else if UpTo(kept, s.hosts[peer].kept) {
      KeptGrows(s, step, peer);
      OwingUpTo(s, step, c, peer, w);
    } else if Coming(s, peer, w, kept.value) {
      OwingComing(s, step, c, peer, w);
    } else if Offer(w) in s.hosts[c].tasks {
      OwingOffer(s, step, c, peer, w);
    } else {
      var skip: Option<Wire> :| skip != Some(w) && Broadcast(skip) in s.hosts[c].tasks;
      OwingBroadcast(s, step, c, peer, w, skip);
    }
  }

  lemma OwingStays(s: State, step: Step, c: Computer, peer: Computer, w: Wire)
    requires Inv(s) && Shaped(Next(s, step))
    requires c in s.hosts && peer in s.hosts[c].sessions && s.hosts[c].sessions[peer] == w
    requires c in Next(s, step).hosts && peer in Next(s, step).hosts[c].sessions && Next(s, step).hosts[c].sessions[peer] == w
    requires Next(s, step).links[w].alive
    ensures Owing(Next(s, step), c, w)
  {
    SpansFrom(s, step, c, peer, w);
    assert Owing(s, c, w);
    OwingCases(s, step, c, peer, w);
  }

  lemma OwedStays(s: State, step: Step)
    requires Inv(s) && Shaped(Next(s, step))
    ensures Owed(Next(s, step))
  {
    var t := Next(s, step);
    HostsStay(s, step);
    forall c, peer | c in t.hosts && peer in t.hosts[c].sessions && t.links[t.hosts[c].sessions[peer]].alive
      ensures Owing(t, c, t.hosts[c].sessions[peer])
    {
      SessionsFrom(s, step, c, peer);
      var w := t.hosts[c].sessions[peer];
      if peer in s.hosts[c].sessions && s.hosts[c].sessions[peer] == w {
        OwingStays(s, step, c, peer, w);
      }
    }
  }

  lemma InvStays(s: State, step: Step)
    requires Inv(s)
    ensures Inv(Next(s, step))
  {
    ShapedStays(s, step);
    SourcedStays(s, step);
    LoggedStays(s, step);
    OwedStays(s, step);
  }

  // ----- whole runs

  lemma {:induction false} InvHolds(s: State, steps: seq<Step>)
    requires Initial(s)
    ensures Inv(Run(s, steps))
  {
    if steps != [] {
      InvHolds(s, steps[..|steps| - 1]);
      InvStays(Run(s, steps[..|steps| - 1]), steps[|steps| - 1]);
    }
  }

  /** In a run, a computer's kept layout only ever gives way to a newer one. */
  lemma {:induction false} KeptNeverDecreases(s: State, steps: seq<Step>, n: nat, c: Computer)
    requires Initial(s) && c in s.hosts && n <= |steps|
    ensures c in Run(s, steps[..n]).hosts && c in Run(s, steps).hosts
    ensures UpTo(Run(s, steps[..n]).hosts[c].kept, Run(s, steps).hosts[c].kept)
    decreases |steps|
  {
    if n == |steps| {
      assert steps[..n] == steps;
      RunHosts(s, steps);
      var kept := Run(s, steps).hosts[c].kept;
      if kept.Some? { NewerIsTotal(kept.value, kept.value); }
    } else {
      var before := steps[..|steps| - 1];
      assert before[..n] == steps[..n];
      KeptNeverDecreases(s, before, n, c);
      KeptGrows(Run(s, before), steps[|steps| - 1], c);
      UpToTransitive(Run(s, before[..n]).hosts[c].kept, Run(s, before).hosts[c].kept, Run(s, steps).hosts[c].kept);
    }
  }

  lemma {:induction false} RunHosts(s: State, steps: seq<Step>)
    ensures Run(s, steps).hosts.Keys == s.hosts.Keys
  {
    if steps != [] {
      RunHosts(s, steps[..|steps| - 1]);
      HostsStay(Run(s, steps[..|steps| - 1]), steps[|steps| - 1]);
    }
  }

  /** A layout some computer keeps, or one on its way to one. */
  ghost predicate About(s: State, layout: SharedLayout) {
    || (exists c :: c in s.hosts && s.hosts[c].kept == Some(layout))
    || (exists c, w :: Coming(s, c, w, layout))
  }

  /** Stamps identify layouts: two about in one state with one stamp are one layout. */
  lemma StampsIdentifyLayouts(s: State, steps: seq<Step>, a: SharedLayout, b: SharedLayout)
    requires Initial(s) && About(Run(s, steps), a) && About(Run(s, steps), b)
    requires a.version == b.version && a.editor == b.editor
    ensures a == b
  {
    InvHolds(s, steps);
  }

  /** Both ends of a live connection have it as their session with each other. */
  predicate Connected(s: State, a: Computer, b: Computer) {
    && a in s.hosts && b in s.hosts
    && b in s.hosts[a].sessions && a in s.hosts[b].sessions
    && s.hosts[a].sessions[b] == s.hosts[b].sessions[a]
    && s.hosts[a].sessions[b] in s.links && s.links[s.hosts[a].sessions[b]].alive
  }

  /** Nothing is on its way to either of the two, and neither has a task left. */
  predicate Quiet(s: State, a: Computer, b: Computer)
    requires Connected(s, a, b)
  {
    var link := s.links[s.hosts[a].sessions[b]];
    link.toFirst == [] && link.toSecond == [] && s.hosts[a].tasks == {} && s.hosts[b].tasks == {}
  }

  lemma NothingOwed(t: State, c: Computer, w: Wire)
    requires Joined(t, c, w) && LinkShaped(t, w) && Owing(t, c, w)
    requires t.hosts[c].tasks == {} && t.hosts[t.links[w].Other(c)].tasks == {}
    requires t.links[w].toFirst == [] && t.links[w].toSecond == []
    ensures UpTo(t.hosts[c].kept, t.hosts[t.links[w].Other(c)].kept)
  {
  }

  lemma SameStampSameLayout(t: State, a: Computer, b: Computer)
    requires Logged(t) && a in t.hosts && b in t.hosts
    requires UpTo(t.hosts[a].kept, t.hosts[b].kept) && UpTo(t.hosts[b].kept, t.hosts[a].kept)
    ensures t.hosts[a].kept == t.hosts[b].kept
  {
    if t.hosts[a].kept.Some? {
      NewerIsTotal(t.hosts[a].kept.value, t.hosts[b].kept.value);
    }
  }

  lemma QuietAgree(t: State, a: Computer, b: Computer)
    requires Inv(t) && Connected(t, a, b) && Quiet(t, a, b)
    ensures t.hosts[a].kept == t.hosts[b].kept
  {
    var w := t.hosts[a].sessions[b];
    assert SessionShaped(t, a, b) && SessionShaped(t, b, a) && LinkShaped(t, w);
    assert Owing(t, a, w) && Owing(t, b, w);
    NothingOwed(t, a, w);
    NothingOwed(t, b, w);
    SameStampSameLayout(t, a, b);
  }

  /** Convergence: connected computers with nothing left to do keep the same layout. */
  lemma QuietComputersAgree(s: State, steps: seq<Step>, a: Computer, b: Computer)
    requires Initial(s) && Connected(Run(s, steps), a, b) && Quiet(Run(s, steps), a, b)
    ensures Run(s, steps).hosts[a].kept == Run(s, steps).hosts[b].kept
  {
    InvHolds(s, steps);
    QuietAgree(Run(s, steps), a, b);
  }

  /** A chain of connected computers, none of which has anything left to do with the next. */
  ghost predicate QuietChain(s: State, path: seq<Computer>) {
    forall i :: 0 <= i < |path| - 1 ==> Connected(s, path[i], path[i + 1]) && Quiet(s, path[i], path[i + 1])
  }

  /** So all computers of a connected network at rest keep one and the same layout. */
  lemma {:induction false} QuietNetworkAgrees(s: State, steps: seq<Step>, path: seq<Computer>)
    requires Initial(s) && |path| >= 2 && QuietChain(Run(s, steps), path)
    ensures path[0] in Run(s, steps).hosts && path[|path| - 1] in Run(s, steps).hosts
    ensures Run(s, steps).hosts[path[0]].kept == Run(s, steps).hosts[path[|path| - 1]].kept
  {
    var last := |path| - 1;
    assert Connected(Run(s, steps), path[last - 1], path[last - 1 + 1]) && Quiet(Run(s, steps), path[last - 1], path[last - 1 + 1]);
    QuietComputersAgree(s, steps, path[last - 1], path[last]);
    if last > 1 {
      QuietNetworkAgrees(s, steps, path[..last]);
    }
  }

  // ----- what arrives is kept or answered

  /** A newer layout that arrives is to be kept; an older one is answered with what is kept, over the session it came on. */
  lemma ArrivalIsKeptOrAnswered(s: State, c: Computer, w: Wire)
    requires Joined(s, c, w) && s.links[w].Inbox(c) != [] && LinkShaped(s, w)
    ensures var (h, layout, t) := (s.hosts[c], s.links[w].Inbox(c)[0], Next(s, Receive(c, w)));
      && t.links[w].Inbox(c) == s.links[w].Inbox(c)[1..]
      && t.hosts[c].kept == h.kept
      && (h.kept.None? || layout.IsNewerThan(h.kept.value) ==> Keep(layout, Some(w)) in t.hosts[c].tasks)
      && (h.kept.Some? && h.kept.value.IsNewerThan(layout) && s.links[w].Other(c) in h.sessions && h.sessions[s.links[w].Other(c)] == w ==>
            Offer(w) in t.hosts[c].tasks)
  {
    if s.hosts[c].kept.Some? { NewerIsTotal(s.hosts[c].kept.value, s.links[w].Inbox(c)[0]); }
  }

  /** A session whose end was reported is none any more; a newer one in its place stays. */
  lemma UnregisteredIsGone(s: State, c: Computer, w: Wire)
    requires Joined(s, c, w)
    ensures var (peer, t) := (s.links[w].Other(c), Next(s, Unregister(c, w)));
      && !(peer in t.hosts[c].sessions && t.hosts[c].sessions[peer] == w)
      && (peer in s.hosts[c].sessions && s.hosts[c].sessions[peer] != w ==> t == s)
  {
  }

  // ----- edits are not lost

  /** Whatever was to be kept, the computer keeps that or something as new. */
  lemma KeepIsKept(s: State, c: Computer, task: Task, again: bool)
    requires c in s.hosts && task in s.hosts[c].tasks && task.Keep?
    ensures UpTo(Some(task.layout), Next(s, RunKeep(c, task, again)).hosts[c].kept)
  {
    NewerIsTotal(task.layout, task.layout);
    if s.hosts[c].kept.Some? {
      NewerIsTotal(task.layout, s.hosts[c].kept.value);
    }
  }

  /** An edit made here is still to be kept, or something as new is. */
  predicate EditSafe(s: State, c: Computer, layout: SharedLayout) {
    c in s.hosts && (Keep(layout, None) in s.hosts[c].tasks || UpTo(Some(layout), s.hosts[c].kept))
  }

  lemma EditSafeStays(s: State, step: Step, c: Computer, layout: SharedLayout)
    requires EditSafe(s, c, layout) && !(step.Restart? && step.at == c)
    ensures EditSafe(Next(s, step), c, layout)
  {
    HostsStay(s, step);
    var task := Keep(layout, None);
    if task in s.hosts[c].tasks {
      if step.RunKeep? && step.at == c && step.task == task {
        KeepIsKept(s, c, task, step.again);
      } else if (step.RunBroadcast? || step.RunOffer?) && step.at == c && step.task == task {
        assert Next(s, step) == s;
      } else {
        TaskStays(s, step, c, task);
      }
    } else {
      KeptGrows(s, step, c);
      UpToTransitive(Some(layout), s.hosts[c].kept, Next(s, step).hosts[c].kept);
    }
  }

  /** `c` made the edit `layout` at step `n` and has not restarted since. */
  predicate Edited(steps: seq<Step>, n: nat, c: Computer, layout: SharedLayout) {
    && n < |steps| && steps[n] == Edit(c, layout) && layout.editor == c
    && forall k :: n < k < |steps| ==> !(steps[k].Restart? && steps[k].at == c)
  }

  lemma {:induction false} EditStaysSafe(s: State, steps: seq<Step>, n: nat, c: Computer, layout: SharedLayout)
    requires Edited(steps, n, c, layout) && c in s.hosts
    ensures EditSafe(Run(s, steps), c, layout)
  {
    var last := |steps| - 1;
    RunHosts(s, steps[..last]);
    if n < last {
      EditStaysSafe(s, steps[..last], n, c, layout);
      EditSafeStays(Run(s, steps[..last]), steps[last], c, layout);
    }
  }

  /** Once a computer has nothing left to do, it keeps every edit made there since it started, or something as new. */
  lemma EditsAreKept(s: State, steps: seq<Step>, n: nat, c: Computer, layout: SharedLayout)
    requires Edited(steps, n, c, layout) && c in s.hosts
    ensures c in Run(s, steps).hosts
    ensures Run(s, steps).hosts[c].tasks == {} ==> UpTo(Some(layout), Run(s, steps).hosts[c].kept)
  {
    EditStaysSafe(s, steps, n, c, layout);
  }

  /** And in a connected network at rest so does every computer. */
  lemma QuietNetworkKeepsEdits(s: State, steps: seq<Step>, path: seq<Computer>, n: nat, layout: SharedLayout)
    requires Initial(s) && |path| >= 2 && QuietChain(Run(s, steps), path)
    requires Edited(steps, n, path[0], layout) && path[0] in s.hosts
    ensures path[|path| - 1] in Run(s, steps).hosts
    ensures UpTo(Some(layout), Run(s, steps).hosts[path[|path| - 1]].kept)
  {
    EditsAreKept(s, steps, n, path[0], layout);
    assert Connected(Run(s, steps), path[0], path[0 + 1]) && Quiet(Run(s, steps), path[0], path[0 + 1]);
    QuietNetworkAgrees(s, steps, path);
  }
}
