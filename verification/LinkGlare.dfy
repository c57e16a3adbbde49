/** `LinkRegistry.kt`: which of several links between two nodes becomes the canonical one. */
module LinkGlare {
  import opened Seqs

  /** A node hash, read as the number its hex digits spell. */
  type Hash = nat

  /** One link between two nodes; `tag` tells apart links that agree on everything else. */
  datatype Link = Link(tag: nat, level: real, initiator: Hash)

  datatype Note = Up(link: Link) | Down(link: Link)

  /** What one node knows about its links to one peer: the canonical link, the links whose `onDown` it
      listens to, the links it has closed, and what it has told its listeners. */
  datatype End = End(canonical: Option<Link>, wired: set<Link>, closed: set<Link>, notes: seq<Note>)

  const FRESH := End(None, {}, {}, [])

  // ---------------------------------------------------------------- the code

  /** `linkIsPreferred`: a higher level wins; otherwise a link initiated by the smaller hash. */
  predicate LinkIsPreferred(self: Hash, remote: Hash, link: Link, against: Option<Link>) {
    if against.Some? && link.level != against.value.level then link.level > against.value.level
    else if link.initiator == self then self < remote
    else self > remote
  }

  function RegisterAt(self: Hash, remote: Hash, e: End, candidate: Link): End {
    if e.canonical.Some? && e.canonical.value != candidate && !LinkIsPreferred(self, remote, candidate, e.canonical)
    then e.(closed := e.closed + {candidate})
    else End(Some(candidate), e.wired + {candidate},
      e.closed + (if e.canonical.Some? && e.canonical.value != candidate then {e.canonical.value} else {}),
      e.notes + [Up(candidate)])
  }

  /** The `onDown` listener of `wireLink`: only the canonical link's end is reported. */
  function DownAt(e: End, link: Link): End {
    if link in e.wired && e.canonical == Some(link) then e.(canonical := None, notes := e.notes + [Down(link)])
    else e
  }

  class LinkRegistry {
    const self: Hash
    var links: map<Hash, Link>
    var wired: map<Hash, set<Link>>
    var closed: map<Hash, set<Link>>
    var notes: map<Hash, seq<Note>>

    constructor (self: Hash)
      ensures this.self == self && forall remote :: EndFor(remote) == FRESH
    {
      this.self := self;
      links, wired, closed, notes := map[], map[], map[], map[];
    }

    function EndFor(remote: Hash): End
      reads this
    {
      End(if remote in links then Some(links[remote]) else None,
        if remote in wired then wired[remote] else {},
        if remote in closed then closed[remote] else {},
        if remote in notes then notes[remote] else [])
    }

    method Close(remote: Hash, link: Link)
      modifies this`closed
      ensures EndFor(remote) == old(EndFor(remote)).(closed := old(EndFor(remote)).closed + {link})
      ensures forall other | other != remote :: EndFor(other) == old(EndFor(other))
    {
      closed := closed[remote := (if remote in closed then closed[remote] else {}) + {link}];
    }

    method Emit(remote: Hash, note: Note)
      modifies this`notes
      ensures EndFor(remote) == old(EndFor(remote)).(notes := old(EndFor(remote)).notes + [note])
      ensures forall other | other != remote :: EndFor(other) == old(EndFor(other))
    {
      notes := notes[remote := (if remote in notes then notes[remote] else []) + [note]];
    }

    /** `registerResolvedLink`. */
    method RegisterResolvedLink(remote: Hash, candidate: Link)
      modifies this
      ensures EndFor(remote) == RegisterAt(self, remote, old(EndFor(remote)), candidate)
      ensures forall other | other != remote :: EndFor(other) == old(EndFor(other))
    {
      var existing := if remote in links then Some(links[remote]) else None;
      if existing.Some? && existing.value != candidate && !LinkIsPreferred(self, remote, candidate, existing) {
        Close(remote, candidate);
        return;
      }
      links := links[remote := candidate];
      wired := wired[remote := (if remote in wired then wired[remote] else {}) + {candidate}];
      if existing.Some? && existing.value != candidate {
        Close(remote, existing.value);
      }
      Emit(remote, Up(candidate));
    }

    /** A link reports that it is down. */
    method LinkDown(remote: Hash, link: Link)
      modifies this
      ensures EndFor(remote) == DownAt(old(EndFor(remote)), link)
      ensures forall other | other != remote :: EndFor(other) == old(EndFor(other))
    {
      if remote in wired && link in wired[remote] {
        var wasCanonical := remote in links && links[remote] == link;
        if !wasCanonical {
          return;
        }
        links := links - {remote};
        Emit(remote, Down(link));
      }
    }
  }

  /** Registering the canonical link once more closes nothing and tells the listeners again. */
  lemma {:induction false} RegisteredAgain(self: Hash, remote: Hash, e: End, link: Link)
    requires e.canonical == Some(link)
    ensures RegisterAt(self, remote, e, link)
      == End(Some(link), e.wired + {link}, e.closed, e.notes + [Up(link)])
  {
    assert e.closed + {} == e.closed;
  }

  // ---------------------------------------------------------------- two nodes

  /** Both ends of the pair, what each has registered, and which of the other's closes each has seen. */
  datatype Net = Net(a: End, b: End, registeredA: set<Link>, registeredB: set<Link>, seenA: set<Link>, seenB: set<Link>)

  datatype Step = RegisterA(link: Link) | RegisterB(link: Link) | SeeCloseA(link: Link) | SeeCloseB(link: Link)

  const START := Net(FRESH, FRESH, {}, {}, {}, {})

  /** Each end registers each link once; a close is seen after it happened, even before the link is registered. */
  predicate Enabled(links: set<Link>, n: Net, s: Step) {
    match s
    case RegisterA(l) => l in links && l !in n.registeredA
    case RegisterB(l) => l in links && l !in n.registeredB
    case SeeCloseA(l) => l in n.b.closed && l !in n.seenA
    case SeeCloseB(l) => l in n.a.closed && l !in n.seenB
  }

  function After(a: Hash, b: Hash, n: Net, s: Step): Net {
    match s
    case RegisterA(l) => n.(a := RegisterAt(a, b, n.a, l), registeredA := n.registeredA + {l})
    case RegisterB(l) => n.(b := RegisterAt(b, a, n.b, l), registeredB := n.registeredB + {l})
    case SeeCloseA(l) => n.(a := DownAt(n.a, l), seenA := n.seenA + {l})
    case SeeCloseB(l) => n.(b := DownAt(n.b, l), seenB := n.seenB + {l})
  }

  function RunFrom(a: Hash, b: Hash, steps: seq<Step>): Net {
    if steps == [] then START else After(a, b, RunFrom(a, b, steps[..|steps| - 1]), steps[|steps| - 1])
  }

  ghost predicate IsRun(a: Hash, b: Hash, links: set<Link>, steps: seq<Step>) {
    steps == [] ||
    (IsRun(a, b, links, steps[..|steps| - 1])
      && Enabled(links, RunFrom(a, b, steps[..|steps| - 1]), steps[|steps| - 1]))
  }

  /** Links really join the two nodes. */
  ghost predicate Between(a: Hash, b: Hash, links: set<Link>) {
    a != b && forall l | l in links :: l.initiator == a || l.initiator == b
  }

  /** The rule both ends follow, said once: higher level, then initiated by the smaller hash. */
  predicate Beats(a: Hash, b: Hash, l: Link, m: Link) {
    l.level > m.level || (l.level == m.level && l.initiator == if a < b then a else b)
  }

  /** The two ends judge alike. */
  lemma {:induction false} PreferenceIsShared(a: Hash, b: Hash, l: Link, m: Link)
    requires Between(a, b, {l, m})
    ensures LinkIsPreferred(a, b, l, Some(m)) == LinkIsPreferred(b, a, l, Some(m)) == Beats(a, b, l, m)
  {
    assert l in {l, m};
  }

  ghost predicate IsBest(a: Hash, b: Hash, links: set<Link>, best: Link) {
    best in links && forall l | l in links && l != best :: Beats(a, b, best, l) && !Beats(a, b, l, best)
  }

  /** With at most one link per level and initiator, there is a best one. */
  lemma {:induction false} BestExists(a: Hash, b: Hash, links: set<Link>) returns (best: Link)
    requires Between(a, b, links) && links != {}
    requires forall l, m | l in links && m in links && l != m :: l.level != m.level || l.initiator != m.initiator
    ensures IsBest(a, b, links, best)
    decreases |links|
  {
    var l :| l in links;
    if links == {l} {
      best := l;
    } else {
      var m := BestExists(a, b, links - {l});
      assert l.initiator == a || l.initiator == b;
      best := if Beats(a, b, l, m) && !Beats(a, b, m, l) then l else m;
      forall k | k in links && k != best ensures Beats(a, b, best, k) && !Beats(a, b, k, best) {
        assert k != l && k != m ==> Beats(a, b, m, k) && !Beats(a, b, k, m);
      }
    }
  }

  // ---------------------------------------------------------------- what every interleaving keeps

  /** An end's listeners have been told exactly what is canonical now. */
  ghost predicate ToldTheTruth(e: End) {
    match e.canonical
    case Some(l) => e.notes != [] && e.notes[|e.notes| - 1] == Up(l) && l in e.wired
    case None => e.notes == [] || e.notes[|e.notes| - 1].Down?
  }

  /** One end: the best link is never closed and, once registered, stays canonical; every other registered link
      is canonical now or has been closed by one side. */
  ghost predicate EndKeeps(best: Link, links: set<Link>, e: End, registered: set<Link>, otherClosed: set<Link>) {
    && registered <= links && best !in e.closed && e.closed <= registered && ToldTheTruth(e)
    && (best in registered ==> e.canonical == Some(best))
    && (forall l | l in registered :: e.canonical == Some(l) || l in e.closed || l in otherClosed)
    && (e.canonical.Some? ==> e.canonical.value in registered)
  }

  ghost predicate Keeps(best: Link, links: set<Link>, n: Net) {
    && EndKeeps(best, links, n.a, n.registeredA, n.b.closed)
    && EndKeeps(best, links, n.b, n.registeredB, n.a.closed)
  }

  lemma {:induction false} RegisterKeeps(self: Hash, remote: Hash, best: Link, links: set<Link>, e: End,
        registered: set<Link>, otherClosed: set<Link>, l: Link)
    requires Between(self, remote, links) && IsBest(self, remote, links, best) && l in links && l !in registered
    requires EndKeeps(best, links, e, registered, otherClosed)
    ensures EndKeeps(best, links, RegisterAt(self, remote, e, l), registered + {l}, otherClosed)
    ensures e.closed <= RegisterAt(self, remote, e, l).closed
  {
    if e.canonical.Some? {
      PreferenceIsShared(self, remote, l, e.canonical.value);
    }
  }

  lemma {:induction false} DownKeeps(best: Link, links: set<Link>, e: End, registered: set<Link>,
        otherClosed: set<Link>, l: Link)
    requires EndKeeps(best, links, e, registered, otherClosed) && l in otherClosed && l != best
    ensures EndKeeps(best, links, DownAt(e, l), registered, otherClosed) && DownAt(e, l).closed == e.closed
  {
  }

  lemma {:induction false} BestIsShared(a: Hash, b: Hash, links: set<Link>, best: Link)
    requires IsBest(a, b, links, best) && a != b
    ensures IsBest(b, a, links, best)
  {
    forall l | l in links && l != best ensures Beats(b, a, best, l) && !Beats(b, a, l, best) {
      assert Beats(a, b, best, l) && !Beats(a, b, l, best);
    }
  }

  lemma {:induction false} StepKeeps(a: Hash, b: Hash, best: Link, links: set<Link>, n: Net, s: Step)
    requires Between(a, b, links) && IsBest(a, b, links, best) && Keeps(best, links, n) && Enabled(links, n, s)
    ensures Keeps(best, links, After(a, b, n, s))
  {
    BestIsShared(a, b, links, best);
    match s
    case RegisterA(l) => RegisterKeeps(a, b, best, links, n.a, n.registeredA, n.b.closed, l);
    case RegisterB(l) => RegisterKeeps(b, a, best, links, n.b, n.registeredB, n.a.closed, l);
    case SeeCloseA(l) => DownKeeps(best, links, n.a, n.registeredA, n.b.closed, l);
    case SeeCloseB(l) => DownKeeps(best, links, n.b, n.registeredB, n.a.closed, l);
  }

  /** In every interleaving: the best link is never closed, and an end that has registered it holds to it. */
  lemma {:induction false} RunsKeepBest(a: Hash, b: Hash, best: Link, links: set<Link>, steps: seq<Step>)
    requires Between(a, b, links) && IsBest(a, b, links, best) && IsRun(a, b, links, steps)
    ensures Keeps(best, links, RunFrom(a, b, steps))
  {
    if steps != [] {
      var init := steps[..|steps| - 1];
      RunsKeepBest(a, b, best, links, init);
      StepKeeps(a, b, best, links, RunFrom(a, b, init), steps[|steps| - 1]);
    }
  }

  /** Once both ends have registered every link, both have the same canonical link, the best one; neither end has
      closed it, every other link has been closed by one of them, and both ends' listeners were last told it is up. */
  lemma {:induction false} GlareConverges(a: Hash, b: Hash, best: Link, links: set<Link>, steps: seq<Step>)
    requires Between(a, b, links) && IsBest(a, b, links, best) && IsRun(a, b, links, steps)
    requires RunFrom(a, b, steps).registeredA == links == RunFrom(a, b, steps).registeredB
    ensures var n := RunFrom(a, b, steps);
      && n.a.canonical == n.b.canonical == Some(best)
      && best !in n.a.closed + n.b.closed
      && (forall l | l in links && l != best :: l in n.a.closed + n.b.closed)
      && n.a.notes != [] && n.a.notes[|n.a.notes| - 1] == Up(best)
      && n.b.notes != [] && n.b.notes[|n.b.notes| - 1] == Up(best)
  {
    RunsKeepBest(a, b, best, links, steps);
  }

  // ---------------------------------------------------------------- when the rule is not enough

  lemma {:induction false} RunStep(a: Hash, b: Hash, links: set<Link>, steps: seq<Step>, s: Step)
    requires IsRun(a, b, links, steps) && Enabled(links, RunFrom(a, b, steps), s)
    ensures IsRun(a, b, links, steps + [s])
    ensures RunFrom(a, b, steps + [s]) == After(a, b, RunFrom(a, b, steps), s)
  {
    assert (steps + [s])[..|steps|] == steps;
  }

  ghost predicate Complete(links: set<Link>, n: Net) {
    && n.registeredA == links == n.registeredB
    && n.b.closed <= n.seenA && n.a.closed <= n.seenB
  }

  /** Strictly better under the rule, whichever of the two is the newcomer. */
  predicate Outranks(a: Hash, b: Hash, l: Link, m: Link) {
    Beats(a, b, l, m) && !Beats(a, b, m, l)
  }

  /** Two links of one level started by the same side, with nothing above them. */
  ghost predicate TopTwins(a: Hash, b: Hash, links: set<Link>, x: Link, y: Link) {
    && x in links && y in links && x != y && x.level == y.level && x.initiator == y.initiator
    && forall z | z in links :: !Outranks(a, b, z, x)
  }

  lemma {:induction false} TopExists(a: Hash, b: Hash, links: set<Link>) returns (top: Link)
    requires Between(a, b, links) && links != {}
    ensures top in links && forall z | z in links :: !Outranks(a, b, z, top)
    decreases |links|
  {
    var l :| l in links;
    top := l;
    if links != {l} {
      var rest := links - {l};
      assert links == rest + {l};
      var m := TopExists(a, b, rest);
      top := if Outranks(a, b, l, m) then l else m;
    }
  }

  /** A best link is missing exactly when there are twins at the top. */
  lemma {:induction false} BestUnlessTwins(a: Hash, b: Hash, links: set<Link>)
    requires Between(a, b, links) && links != {}
    ensures (exists best :: IsBest(a, b, links, best)) <==> !exists x, y :: TopTwins(a, b, links, x, y)
  {
    var top := TopExists(a, b, links);
    if forall y | y in links && y != top :: y.level != top.level || y.initiator != top.initiator {
      assert IsBest(a, b, links, top);
    } else {
      var y :| y in links && y != top && y.level == top.level && y.initiator == top.initiator;
      assert TopTwins(a, b, links, top, y);
    }
  }

  // The two sides play the same part, so what follows names a side by a flag.

  function Register(atA: bool, l: Link): Step {
    if atA then RegisterA(l) else RegisterB(l)
  }

  function SeeClose(atA: bool, l: Link): Step {
    if atA then SeeCloseA(l) else SeeCloseB(l)
  }

  function EndAt(n: Net, atA: bool): End {
    if atA then n.a else n.b
  }

  function RegisteredAt(n: Net, atA: bool): set<Link> {
    if atA then n.registeredA else n.registeredB
  }

  function SeenAt(n: Net, atA: bool): set<Link> {
    if atA then n.seenA else n.seenB
  }

  ghost predicate SideUntouched(n: Net, m: Net, atA: bool) {
    EndAt(m, atA) == EndAt(n, atA) && RegisteredAt(m, atA) == RegisteredAt(n, atA) && SeenAt(m, atA) == SeenAt(n, atA)
  }

  ghost predicate Unbeaten(a: Hash, b: Hash, links: set<Link>, k: Link) {
    k in links && forall l | l in links && l != k :: !Beats(a, b, l, k)
  }

  /** What registering more links at one side cannot undo. */
  ghost predicate OnlyRegistered(a: Hash, b: Hash, links: set<Link>, n: Net, m: Net, atA: bool) {
    && SideUntouched(n, m, !atA) && SeenAt(m, atA) == SeenAt(n, atA)
    && EndAt(n, atA).closed <= EndAt(m, atA).closed && EndAt(n, atA).wired <= EndAt(m, atA).wired
    && KeepsUnbeaten(a, b, links, EndAt(n, atA), EndAt(m, atA))
    && (HoldsOneOf(links, EndAt(n, atA)) ==> HoldsOneOf(links, EndAt(m, atA)))
  }

  ghost predicate KeepsUnbeaten(a: Hash, b: Hash, links: set<Link>, e: End, f: End) {
    e.canonical.Some? && Unbeaten(a, b, links, e.canonical.value) ==> f.canonical == e.canonical
  }

  ghost predicate HoldsOneOf(links: set<Link>, e: End) {
    e.canonical.Some? ==> e.canonical.value in links
  }

  lemma {:induction false} RegisterOne(a: Hash, b: Hash, links: set<Link>, n: Net, atA: bool, l: Link)
    requires Between(a, b, links) && l in links
    ensures var m := After(a, b, n, Register(atA, l));
      OnlyRegistered(a, b, links, n, m, atA) && RegisteredAt(m, atA) == RegisteredAt(n, atA) + {l}
  {
    var c := EndAt(n, atA).canonical;
    if c.Some? && c.value in links {
      PreferenceIsShared(a, b, l, c.value);
    }
  }

  lemma {:induction false} OnlyRegisteredTransitive(a: Hash, b: Hash, links: set<Link>, n: Net, m: Net, k: Net,
        atA: bool)
    requires OnlyRegistered(a, b, links, n, m, atA) && OnlyRegistered(a, b, links, m, k, atA)
    ensures OnlyRegistered(a, b, links, n, k, atA)
  {
  }

  lemma {:induction false} RegisterNext(a: Hash, b: Hash, links: set<Link>, steps: seq<Step>, atA: bool,
        l: Link) returns (more: seq<Step>)
    requires Between(a, b, links) && IsRun(a, b, links, steps) && l in links
    requires l !in RegisteredAt(RunFrom(a, b, steps), atA)
    ensures IsRun(a, b, links, more) && steps <= more
    ensures OnlyRegistered(a, b, links, RunFrom(a, b, steps), RunFrom(a, b, more), atA)
    ensures RegisteredAt(RunFrom(a, b, more), atA) == RegisteredAt(RunFrom(a, b, steps), atA) + {l}
  {
    RunStep(a, b, links, steps, Register(atA, l));
    RegisterOne(a, b, links, RunFrom(a, b, steps), atA, l);
    more := steps + [Register(atA, l)];
  }

  lemma {:induction false} OneThenRest(done: set<Link>, l: Link, todo: set<Link>)
    requires l in todo
    ensures done + {l} + (todo - {l}) == done + todo
  {
  }

  /** From any point of a run, one side can go on to register everything in `todo`. */
  lemma {:induction false} RegisterRest(a: Hash, b: Hash, links: set<Link>, steps: seq<Step>, atA: bool,
        todo: set<Link>) returns (more: seq<Step>)
    requires Between(a, b, links) && IsRun(a, b, links, steps) && todo <= links
    requires todo !! RegisteredAt(RunFrom(a, b, steps), atA)
    ensures IsRun(a, b, links, more) && steps <= more
    ensures OnlyRegistered(a, b, links, RunFrom(a, b, steps), RunFrom(a, b, more), atA)
    ensures RegisteredAt(RunFrom(a, b, more), atA) == RegisteredAt(RunFrom(a, b, steps), atA) + todo
    decreases todo
  {
    more := steps;
    if todo != {} {
      var l :| l in todo;
      var mid := RegisterNext(a, b, links, steps, atA, l);
      more := RegisterRest(a, b, links, mid, atA, todo - {l});
      OnlyRegisteredTransitive(a, b, links, RunFrom(a, b, steps), RunFrom(a, b, mid), RunFrom(a, b, more), atA);
      OneThenRest(RegisteredAt(RunFrom(a, b, steps), atA), l, todo);
    }
  }

  lemma {:induction false} NothingLeft(all: set<Link>, done: set<Link>)
    requires all - done == {}
    ensures all <= done
  {
    forall l | l in all ensures l in done {
      assert l !in all - done;
    }
  }

  /** The link the end holds to is still to be seen closed. */
  predicate Condemned(e: End, todo: set<Link>) {
    e.canonical.Some? ==> e.canonical.value in todo && e.canonical.value in e.wired
  }

  /** From any point of a run, one side can go on to see all of the other's closes; if its own canonical link is
      among them, it is left with none. */
  lemma {:induction false} SeeRest(a: Hash, b: Hash, links: set<Link>, steps: seq<Step>, atA: bool,
        todo: set<Link>) returns (more: seq<Step>)
    requires IsRun(a, b, links, steps)
    requires todo == EndAt(RunFrom(a, b, steps), !atA).closed - SeenAt(RunFrom(a, b, steps), atA)
    ensures IsRun(a, b, links, more) && steps <= more
    ensures var n, m := RunFrom(a, b, steps), RunFrom(a, b, more);
      && SideUntouched(n, m, !atA) && RegisteredAt(m, atA) == RegisteredAt(n, atA)
      && EndAt(m, atA).closed == EndAt(n, atA).closed
      && EndAt(m, !atA).closed <= SeenAt(m, atA) && SeenAt(n, atA) <= SeenAt(m, atA)
      && (Condemned(EndAt(n, atA), todo) ==> EndAt(m, atA).canonical == None)
    decreases todo
  {
    more := steps;
    if todo == {} {
      NothingLeft(EndAt(RunFrom(a, b, steps), !atA).closed, SeenAt(RunFrom(a, b, steps), atA));
    } else {
      var l :| l in todo;
      RunStep(a, b, links, steps, SeeClose(atA, l));
      more := SeeRest(a, b, links, steps + [SeeClose(atA, l)], atA, todo - {l});
    }
  }

  /** Side `atA` holds to `mine`, which the other side has closed. */
  ghost predicate Doomed(n: Net, atA: bool, mine: Link) {
    var e := EndAt(n, atA);
    e.canonical == Some(mine) && mine in e.wired && mine in EndAt(n, !atA).closed && SeenAt(n, atA) == {}
  }

  /** If each side holds to a link the other has closed, both can end with nothing. */
  lemma {:induction false} BothLose(a: Hash, b: Hash, links: set<Link>, steps: seq<Step>, x: Link,
        y: Link) returns (more: seq<Step>)
    requires IsRun(a, b, links, steps)
    requires RegisteredAt(RunFrom(a, b, steps), true) == links == RegisteredAt(RunFrom(a, b, steps), false)
    requires Doomed(RunFrom(a, b, steps), true, x) && Doomed(RunFrom(a, b, steps), false, y)
    ensures IsRun(a, b, links, more) && Complete(links, RunFrom(a, b, more))
    ensures RunFrom(a, b, more).a.canonical == None && RunFrom(a, b, more).b.canonical == None
  {
    var mid := SeeRest(a, b, links, steps, true, RunFrom(a, b, steps).b.closed - {});
    more := SeeRest(a, b, links, mid, false, RunFrom(a, b, mid).a.closed - {});
  }

  function Winner(a: Hash, b: Hash, first: Link, second: Link): Link {
    if Beats(a, b, second, first) then second else first
  }

  function Loser(a: Hash, b: Hash, first: Link, second: Link): Link {
    if Beats(a, b, second, first) then first else second
  }

  /** Registering `first` where it takes over, then its twin `second`. */
  lemma {:induction false} TwinsAtEnd(self: Hash, remote: Hash, e: End, first: Link, second: Link)
    requires Between(self, remote, {first, second}) && first != second
    requires e.canonical.Some? ==> LinkIsPreferred(self, remote, first, e.canonical)
    ensures var after := RegisterAt(self, remote, RegisterAt(self, remote, e, first), second);
      && after.canonical == Some(Winner(self, remote, first, second))
      && Winner(self, remote, first, second) in after.wired && Loser(self, remote, first, second) in after.closed
  {
    PreferenceIsShared(self, remote, second, first);
  }

  /** Both orders of looking at the pair give the same winner. */
  lemma {:induction false} WinnerShared(a: Hash, b: Hash, first: Link, second: Link)
    requires a != b
    ensures Winner(a, b, first, second) == Winner(b, a, first, second)
      && Loser(a, b, first, second) == Loser(b, a, first, second)
  {
  }

  lemma {:induction false} RegisterTwins(a: Hash, b: Hash, links: set<Link>, steps: seq<Step>, atA: bool,
        first: Link, second: Link) returns (more: seq<Step>)
    requires Between(a, b, links) && IsRun(a, b, links, steps) && TopTwins(a, b, links, first, second)
    requires first !in RegisteredAt(RunFrom(a, b, steps), atA) && second !in RegisteredAt(RunFrom(a, b, steps), atA)
    requires HoldsOneOf(links, EndAt(RunFrom(a, b, steps), atA))
    requires var c := EndAt(RunFrom(a, b, steps), atA).canonical; c.Some? ==> Beats(a, b, first, c.value)
    ensures IsRun(a, b, links, more)
    ensures var n, m := RunFrom(a, b, steps), RunFrom(a, b, more);
      && SideUntouched(n, m, !atA) && RegisteredAt(m, atA) == RegisteredAt(n, atA) + {first} + {second}
      && SeenAt(m, atA) == SeenAt(n, atA) && EndAt(m, atA).canonical == Some(Winner(a, b, first, second))
      && Winner(a, b, first, second) in EndAt(m, atA).wired && Loser(a, b, first, second) in EndAt(m, atA).closed
  {
    var n := RunFrom(a, b, steps);
    var mid := steps + [Register(atA, first)];
    TwinsRegistered(a, b, links, n, atA, first, second);
    RunStep(a, b, links, steps, Register(atA, first));
    RunStep(a, b, links, mid, Register(atA, second));
    more := mid + [Register(atA, second)];
  }

  lemma {:induction false} TwinsRegistered(a: Hash, b: Hash, links: set<Link>, n: Net, atA: bool, first: Link,
        second: Link)
    requires Between(a, b, links) && TopTwins(a, b, links, first, second) && HoldsOneOf(links, EndAt(n, atA))
    requires EndAt(n, atA).canonical.Some? ==> Beats(a, b, first, EndAt(n, atA).canonical.value)
    ensures var m := After(a, b, After(a, b, n, Register(atA, first)), Register(atA, second));
      && SideUntouched(n, m, !atA) && RegisteredAt(m, atA) == RegisteredAt(n, atA) + {first} + {second}
      && SeenAt(m, atA) == SeenAt(n, atA) && EndAt(m, atA).canonical == Some(Winner(a, b, first, second))
      && Winner(a, b, first, second) in EndAt(m, atA).wired && Loser(a, b, first, second) in EndAt(m, atA).closed
  {
    var e := EndAt(n, atA);
    if e.canonical.Some? {
      PreferenceIsShared(a, b, first, e.canonical.value);
    }
    if atA {
      TwinsAtEnd(a, b, e, first, second);
    } else {
      TwinsAtEnd(b, a, e, first, second);
      WinnerShared(a, b, first, second);
    }
  }

  /** If the twins take over what they meet, they take over everything; otherwise nothing takes over from them. */
  lemma {:induction false} TwinsRule(a: Hash, b: Hash, links: set<Link>, x: Link, y: Link)
    requires Between(a, b, links) && TopTwins(a, b, links, x, y)
    ensures Beats(a, b, y, x) == Beats(a, b, x, y) && TopTwins(a, b, links, y, x)
    ensures Beats(a, b, y, x) ==> forall l | l in links :: Beats(a, b, x, l) && Beats(a, b, y, l)
    ensures !Beats(a, b, y, x) ==> Unbeaten(a, b, links, x) && Unbeaten(a, b, links, y)
  {
    forall l | l in links ensures !Outranks(a, b, l, x) && l.level <= x.level {
    }
  }

  /** Twins at the top can both die: registered in opposite orders, each end closes the other's choice, and when the
      closes are seen neither end has a link left. */
  lemma {:induction false} TwinsCanBothDie(a: Hash, b: Hash, links: set<Link>, x: Link,
        y: Link) returns (steps: seq<Step>)
    requires Between(a, b, links) && TopTwins(a, b, links, x, y)
    ensures IsRun(a, b, links, steps) && Complete(links, RunFrom(a, b, steps))
    ensures RunFrom(a, b, steps).a.canonical == None && RunFrom(a, b, steps).b.canonical == None
  {
    var rest := links - {x, y};
    TwinsRule(a, b, links, x, y);
    assert rest + {x} + {y} == links && rest + {y} + {x} == links;
    assert {} + {x} + {y} + rest == links && {} + {y} + {x} + rest == links;
    steps := [];
    if Beats(a, b, y, x) {
      steps := RegisterRest(a, b, links, steps, true, rest);
      steps := RegisterRest(a, b, links, steps, false, rest);
      steps := RegisterTwins(a, b, links, steps, true, x, y);
      steps := RegisterTwins(a, b, links, steps, false, y, x);
      steps := BothLose(a, b, links, steps, y, x);
    } else {
      steps := RegisterTwins(a, b, links, steps, true, x, y);
      steps := RegisterTwins(a, b, links, steps, false, y, x);
      steps := RegisterRest(a, b, links, steps, true, rest);
      steps := RegisterRest(a, b, links, steps, false, rest);
      steps := BothLose(a, b, links, steps, x, y);
    }
  }

  lemma {:induction false} RunsRegisterLinks(a: Hash, b: Hash, links: set<Link>, steps: seq<Step>, atA: bool)
    requires IsRun(a, b, links, steps)
    ensures RegisteredAt(RunFrom(a, b, steps), atA) <= links
  {
    if steps != [] {
      RunsRegisterLinks(a, b, links, steps[..|steps| - 1], atA);
    }
  }

  /** Every run can be continued to a complete one. */
  lemma {:induction false} RunsCanComplete(a: Hash, b: Hash, links: set<Link>,
        steps: seq<Step>) returns (more: seq<Step>)
    requires Between(a, b, links) && IsRun(a, b, links, steps)
    ensures IsRun(a, b, links, more) && steps <= more && Complete(links, RunFrom(a, b, more))
  {
    more := RegisterAllAt(a, b, links, steps, true);
    more := RegisterAllAt(a, b, links, more, false);
    more := SeeRest(a, b, links, more, true, RunFrom(a, b, more).b.closed - RunFrom(a, b, more).seenA);
    more := SeeRest(a, b, links, more, false, RunFrom(a, b, more).a.closed - RunFrom(a, b, more).seenB);
  }

  lemma {:induction false} RegisterAllAt(a: Hash, b: Hash, links: set<Link>, steps: seq<Step>,
        atA: bool) returns (more: seq<Step>)
    requires Between(a, b, links) && IsRun(a, b, links, steps)
    ensures IsRun(a, b, links, more) && steps <= more
    ensures RegisteredAt(RunFrom(a, b, more), atA) == links
    ensures RegisteredAt(RunFrom(a, b, more), !atA) == RegisteredAt(RunFrom(a, b, steps), !atA)
  {
    var done := RegisteredAt(RunFrom(a, b, steps), atA);
    RunsRegisterLinks(a, b, links, steps, atA);
    more := RegisterRest(a, b, links, steps, atA, links - done);
    assert done + (links - done) == links;
  }

  ghost predicate AlwaysAgree(a: Hash, b: Hash, links: set<Link>) {
    forall steps | IsRun(a, b, links, steps) && Complete(links, RunFrom(a, b, steps)) ::
      RunFrom(a, b, steps).a.canonical.Some? && RunFrom(a, b, steps).a.canonical == RunFrom(a, b, steps).b.canonical
  }

  /** For every set of links: the nodes agree on a link in every complete run exactly when no two links of the
      winning level and side are in the set. */
  lemma {:induction false} AgreeUnlessTwins(a: Hash, b: Hash, links: set<Link>)
    requires Between(a, b, links) && links != {}
    ensures AlwaysAgree(a, b, links) <==> !exists x, y :: TopTwins(a, b, links, x, y)
  {
    BestUnlessTwins(a, b, links);
    if best :| IsBest(a, b, links, best) {
      forall steps | IsRun(a, b, links, steps) && Complete(links, RunFrom(a, b, steps))
        ensures RunFrom(a, b, steps).a.canonical == Some(best) == RunFrom(a, b, steps).b.canonical
      {
        GlareConverges(a, b, best, links, steps);
      }
    } else {
      var x, y :| TopTwins(a, b, links, x, y);
      var steps := TwinsCanBothDie(a, b, links, x, y);
    }
  }
}
