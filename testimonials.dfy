/** The testimonials section: an "Add Testimonial" button that appends the next
    card from a fixed list of four, and a "Remove Last" button that fades out
    the last card and, in a timer callback that runs later, detaches it and
    decrements the counter. Timers are not modelled as time: every click on
    "Remove Last" queues one pending callback, and the event `TimerTick` runs
    the oldest one (all of them have the same delay, so they run in the order
    they were scheduled). */
module Testimonials {
  import opened Names
  import opened Sequences

  datatype Testimonial = Testimonial(text: string, name: string, company: string)

  /** The sample data, in the order the cards are added. */
  const Source: seq<Testimonial> := [CakeyDelights, TechInnovations, ProductiveTeams, TravelExplorer]

  const CakeyDelights := Testimonial(
    "Daniel created an exceptional website for our bakery business. The design is beautiful and our online sales have increased significantly!",
    "Sarah Johnson", "Cakey Delights")

  const TechInnovations := Testimonial(
    "Working with Daniel was a pleasure. He understood our requirements perfectly and delivered a product that exceeded our expectations.",
    "Michael Chen", "Tech Innovations")

  const ProductiveTeams := Testimonial(
    "The task management app Daniel developed for our team has dramatically improved our productivity. Highly recommended!",
    "Jessica Williams", "Productive Teams Inc.")

  const TravelExplorer := Testimonial(
    "Daniel's attention to detail and creative approach set him apart. Our travel platform has received countless compliments on its design.",
    "Robert Garcia", "Travel Explorer")

  /** A rendered card: the document node's identity, the testimonial it shows and
      the initials in its avatar. Two cards for the same testimonial are still
      two nodes, told apart by `id`. */
  datatype Card = Card(id: nat, testimonial: Testimonial, initials: string)

  /** `createTestimonialCard(testimonial)`, as node number `id`. */
  function RenderCard(id: nat, t: Testimonial): Card
  {
    Card(id, t, Initials(t.name))
  }

  /** Everything the section's closures share: `testimonialCount`, the cards in
      the container (in document order), the two `disabled` flags, the cards
      captured as `lastCard` by the removal callbacks still waiting to run (oldest
      first), and the identity the next created node gets. */
  datatype Page = Page(
    count: int,
    cards: seq<Card>,
    addDisabled: bool,
    removeDisabled: bool,
    pending: seq<nat>,
    nextId: nat)

  /** What running one removal callback did. */
  datatype Fired =
    | NoTimer          // no callback was waiting
    | Detached(id: nat) // the card was removed and the counter decremented
    | NotFound(id: nat) // `removeChild` threw: the card had already been removed

  /** The testimonials shown, in document order. */
  function Shown(cards: seq<Card>): (ts: seq<Testimonial>)
    ensures |ts| == |cards|
    ensures forall i :: 0 <= i < |cards| ==> ts[i] == cards[i].testimonial
  {
    seq(|cards|, i requires 0 <= i < |cards| => cards[i].testimonial)
  }

  predicate HasCard(cards: seq<Card>, id: nat)
  {
    exists i :: 0 <= i < |cards| && cards[i].id == id
  }

  ghost predicate DistinctIds(cards: seq<Card>)
  {
    forall i, j :: 0 <= i < j < |cards| ==> cards[i].id != cards[j].id
  }

  /** The state every sequence of events keeps: the counter within [0, 4] and
      equal to the number of cards; Add disabled exactly when all four are
      shown, Remove disabled exactly when none is; every card rendered from the
      sample data, as a node of its own. */
  ghost predicate Valid(src: seq<Testimonial>, p: Page)
  {
    && |src| > 0
    && 0 <= p.count <= |src|
    && p.count == |p.cards|
    && p.addDisabled == (p.count == |src|)
    && p.removeDisabled == (p.count == 0)
    && DistinctIds(p.cards)
    && (forall i :: 0 <= i < |p.cards| ==> p.cards[i].id < p.nextId)
    && (forall i :: 0 <= i < |p.cards| ==> p.cards[i].testimonial in src)
  }

  /** After set-up: no card, Add enabled, Remove created `disabled`. */
  function Initial(src: seq<Testimonial>): (p: Page)
    requires |src| > 0
    ensures Valid(src, p)
  {
    Page(0, [], false, true, [], 0)
  }

  /** The node identities of the cards, in document order. */
  function Ids(cards: seq<Card>): (ids: seq<nat>)
    ensures |ids| == |cards|
    ensures forall i :: 0 <= i < |cards| ==> ids[i] == cards[i].id
  {
    seq(|cards|, i requires 0 <= i < |cards| => cards[i].id)
  }

  /** The Add button's click listener. */
  function AddClicked(src: seq<Testimonial>, p: Page): (q: Page)
    requires Valid(src, p)
    ensures Valid(src, q)
    ensures p.count < |src| ==>
              && q.count == p.count + 1
              && q.cards == p.cards + [RenderCard(p.nextId, src[p.count])]
              && Shown(q.cards) == Shown(p.cards) + [src[p.count]]
              && q.pending == p.pending
              && !q.removeDisabled
              && (q.addDisabled <==> q.count == |src|)
    ensures p.count >= |src| ==> q == p
  {
    if p.count < |src| then
      var card := RenderCard(p.nextId, src[p.count]);
      var count := p.count + 1;
      var q := p.(cards := p.cards + [card], count := count, nextId := p.nextId + 1);
      var q := if count > 0 then q.(removeDisabled := false) else q;
      var q := if count >= |src| then q.(addDisabled := true) else q;
      assert Shown(q.cards) == Shown(p.cards) + [src[p.count]];
      q
    else p
  }

  /** The Remove button's click listener: it picks the last card in the
      container and schedules its removal; nothing else changes yet. */
  function RemoveClicked(src: seq<Testimonial>, p: Page): (q: Page)
    requires Valid(src, p)
    ensures Valid(src, q)
    ensures p.count > 0 ==>
              && q.pending == p.pending + [p.cards[|p.cards| - 1].id]
              && q.cards == p.cards && q.count == p.count
              && q.addDisabled == p.addDisabled && q.removeDisabled == p.removeDisabled
              && q.nextId == p.nextId
    ensures p.count == 0 ==> q == p
  {
    if p.count > 0 then
      var lastCard := p.cards[|p.cards| - 1];
      p.(pending := p.pending + [lastCard.id])
    else p
  }

  /** The cards after `removeChild` of the one at position `k`. */
  function Without(cards: seq<Card>, k: nat): (r: seq<Card>)
    requires k < |cards|
    ensures |r| == |cards| - 1
    ensures forall i :: 0 <= i < |r| ==> r[i] == cards[if i < k then i else i + 1]
  {
    cards[..k] + cards[k + 1..]
  }

  lemma WithoutKeepsDistinct(cards: seq<Card>, k: nat)
    requires k < |cards| && DistinctIds(cards)
    ensures DistinctIds(Without(cards, k))
    ensures !HasCard(Without(cards, k), cards[k].id)
  {
    var r := Without(cards, k);
    forall i, j | 0 <= i < j < |r|
      ensures r[i].id != r[j].id
    {
      assert r[i] == cards[if i < k then i else i + 1];
      assert r[j] == cards[if j < k then j else j + 1];
    }
    forall i | 0 <= i < |r|
      ensures r[i].id != cards[k].id
    {
      assert r[i] == cards[if i < k then i else i + 1];
    }
  }

  /** The oldest pending removal callback runs: `removeChild(lastCard)`, which
      throws when that node is no longer in the container, then the decrement
      and the two button updates. */
  function TimerFired(src: seq<Testimonial>, p: Page): (r: (Page, Fired))
    requires Valid(src, p)
    ensures Valid(src, r.0)
    ensures p.pending == [] ==> r == (p, NoTimer)
    ensures p.pending != [] && HasCard(p.cards, p.pending[0]) ==>
              var id, q := p.pending[0], r.0;
              && r.1 == Detached(id)
              && q.pending == p.pending[1..]
              && q.count == p.count - 1
              && !HasCard(q.cards, id)
              && (exists k :: 0 <= k < |p.cards| && p.cards[k].id == id
                                && q.cards == Without(p.cards, k))
              && (q.removeDisabled <==> q.count == 0)
              && !q.addDisabled
    ensures p.pending != [] && !HasCard(p.cards, p.pending[0]) ==>
              r == (p.(pending := p.pending[1..]), NotFound(p.pending[0]))
  {
    if p.pending == [] then (p, NoTimer)
    else
      var id := p.pending[0];
      var k := IndexOf(Ids(p.cards), id);
      if k == |p.cards| then (p.(pending := p.pending[1..]), NotFound(id))
      else
        WithoutKeepsDistinct(p.cards, k);
        var count := p.count - 1;
        var q := p.(pending := p.pending[1..], cards := Without(p.cards, k), count := count);
        var q := if count == 0 then q.(removeDisabled := true) else q;
        var q := if count < |src| then q.(addDisabled := false) else q;
        (q, Detached(id))
  }

  /** The user's events. A click on a `disabled` button is not delivered. */
  datatype Event = AddClick | RemoveClick | TimerTick

  function Dispatch(src: seq<Testimonial>, p: Page, e: Event): (q: Page)
    requires Valid(src, p)
    ensures Valid(src, q)
  {
    match e
    case AddClick => if p.addDisabled then p else AddClicked(src, p)
    case RemoveClick => if p.removeDisabled then p else RemoveClicked(src, p)
    case TimerTick => TimerFired(src, p).0
  }

  /** The listeners' own guards coincide with the buttons' `disabled` flags, so
      a click on a disabled button would have changed nothing anyway. */
  lemma GuardsMatchButtons(src: seq<Testimonial>, p: Page)
    requires Valid(src, p)
    ensures Dispatch(src, p, AddClick) == AddClicked(src, p)
    ensures Dispatch(src, p, RemoveClick) == RemoveClicked(src, p)
    ensures p.addDisabled <==> !(p.count < |src|)
    ensures p.removeDisabled <==> !(p.count > 0)
  {
  }

  /** The page after a sequence of events. */
  function Run(src: seq<Testimonial>, p: Page, events: seq<Event>): (q: Page)
    requires Valid(src, p)
    ensures Valid(src, q)
    decreases |events|
  {
    if events == [] then p else Run(src, Dispatch(src, p, events[0]), events[1..])
  }

  lemma {:induction false} RunAppend(src: seq<Testimonial>, p: Page, a: seq<Event>, b: seq<Event>)
    requires Valid(src, p)
    ensures Run(src, p, a + b) == Run(src, Run(src, p, a), b)
    decreases |a|
  {
    if a != [] {
      assert (a + b)[0] == a[0];
      assert (a + b)[1..] == a[1..] + b;
      RunAppend(src, Dispatch(src, p, a[0]), a[1..], b);
    } else {
      assert a + b == b;
    }
  }

  /** Whatever the user does, in whatever order the callbacks interleave with
      the clicks, the counter stays within [0, 4], equals the number of cards,
      and the buttons' flags are functions of it. */
  lemma AnyRunKeepsInvariant(src: seq<Testimonial>, events: seq<Event>)
    requires |src| > 0
    ensures var q := Run(src, Initial(src), events);
      && 0 <= q.count <= |src| && q.count == |q.cards|
      && (q.addDisabled <==> q.count == |src|)
      && (q.removeDisabled <==> q.count == 0)
  {
  }

  /** No removal is pending, and the cards shown are the first `count`
      testimonials, in order. */
  ghost predicate Settled(src: seq<Testimonial>, p: Page)
  {
    Valid(src, p) && p.pending == [] && Shown(p.cards) == src[..p.count]
  }

  lemma RunCons(src: seq<Testimonial>, p: Page, e: Event, rest: seq<Event>)
    requires Valid(src, p)
    ensures Run(src, p, [e] + rest) == Run(src, Dispatch(src, p, e), rest)
  {
    assert ([e] + rest)[1..] == rest;
  }

  /** Runs of two and three events, spelled out. */
  lemma RunTwo(src: seq<Testimonial>, p: Page, e1: Event, e2: Event)
    requires Valid(src, p)
    ensures Run(src, p, [e1, e2]) == Dispatch(src, Dispatch(src, p, e1), e2)
  {
    var a := Dispatch(src, p, e1);
    RunCons(src, p, e1, [e2]);
    RunCons(src, a, e2, []);
    assert [e1] + [e2] == [e1, e2];
    assert [e2] + [] == [e2];
  }

  lemma RunThree(src: seq<Testimonial>, p: Page, e1: Event, e2: Event, e3: Event)
    requires Valid(src, p)
    ensures Run(src, p, [e1, e2, e3]) == Dispatch(src, Dispatch(src, Dispatch(src, p, e1), e2), e3)
  {
    var a := Dispatch(src, p, e1);
    assert [e1] + [e2, e3] == [e1, e2, e3];
    RunCons(src, p, e1, [e2, e3]);
    RunTwo(src, a, e2, e3);
  }

  /** A callback whose captured card is still at position `k` detaches exactly it. */
  lemma FireDetaches(src: seq<Testimonial>, p: Page, k: nat)
    requires Valid(src, p) && k < |p.cards| && p.pending != [] && p.pending[0] == p.cards[k].id
    ensures var (q, fired) := TimerFired(src, p);
      && fired == Detached(p.cards[k].id)
      && q.cards == Without(p.cards, k)
      && q.count == p.count - 1
      && q.pending == p.pending[1..]
  {
    IndexOfDistinct(p.cards, k);
  }

  /** The events of one user action when each removal is let finish before the
      next click. */
  datatype Action = Add | RemoveAndWait

  function Events(actions: seq<Action>): seq<Event>
  {
    if actions == [] then []
    else (if actions[0] == Add then [AddClick] else [RemoveClick, TimerTick]) + Events(actions[1..])
  }

  /** `removeChild` finds a card where it is: node identities are distinct. */
  lemma IndexOfDistinct(cards: seq<Card>, k: nat)
    requires k < |cards| && DistinctIds(cards)
    ensures IndexOf(Ids(cards), cards[k].id) == k
  {
  }

  /** An Add on a settled page shows one more testimonial of the list. */
  lemma AddKeepsSettled(src: seq<Testimonial>, p: Page)
    requires Settled(src, p)
    ensures Settled(src, AddClicked(src, p))
    ensures p.count < |src| ==> AddClicked(src, p).count == p.count + 1
  {
    if p.count < |src| {
      assert src[..p.count + 1] == src[..p.count] + [src[p.count]];
    }
  }

  lemma AddEventKeepsSettled(src: seq<Testimonial>, p: Page)
    requires Settled(src, p)
    ensures Settled(src, Run(src, p, [AddClick]))
  {
    RunCons(src, p, AddClick, []);
    assert [AddClick] + [] == [AddClick];
    AddKeepsSettled(src, p);
  }

  /** A Remove whose callback runs before any other click detaches the last card. */
  lemma RemoveThenFire(src: seq<Testimonial>, p: Page)
    requires Settled(src, p) && p.count > 0
    ensures var r := TimerFired(src, RemoveClicked(src, p)).0;
      && r.pending == [] && r.count == p.count - 1
      && r.cards == p.cards[..p.count - 1]
  {
    var q := RemoveClicked(src, p);
    FireDetaches(src, q, p.count - 1);
  }

  lemma RemoveAndWaitKeepsSettled(src: seq<Testimonial>, p: Page)
    requires Settled(src, p)
    ensures var q := Run(src, p, [RemoveClick, TimerTick]);
      && Settled(src, q)
      && q.count == if p.count > 0 then p.count - 1 else 0
  {
    RunTwo(src, p, RemoveClick, TimerTick);
    if p.count > 0 {
      RemoveThenFire(src, p);
      var r := Run(src, p, [RemoveClick, TimerTick]);
      assert Shown(r.cards) == Shown(p.cards)[..p.count - 1];
    }
  }

  /** Over any sequence of Adds and completed Removes the container holds exactly
      `testimonials[0..count)` in order: Add takes the next testimonial and
      Remove takes back the newest card. */
  lemma {:induction false} SettledRunShowsPrefix(src: seq<Testimonial>, p: Page, actions: seq<Action>)
    requires Settled(src, p)
    ensures Settled(src, Run(src, p, Events(actions)))
    decreases |actions|
  {
    if actions != [] {
      var first := if actions[0] == Add then [AddClick] else [RemoveClick, TimerTick];
      RunAppend(src, p, first, Events(actions[1..]));
      if actions[0] == Add {
        AddEventKeepsSettled(src, p);
      } else {
        RemoveAndWaitKeepsSettled(src, p);
      }
      SettledRunShowsPrefix(src, Run(src, p, first), actions[1..]);
    }
  }

  lemma PrefixFromStart(src: seq<Testimonial>, actions: seq<Action>)
    requires |src| > 0
    ensures var q := Run(src, Initial(src), Events(actions));
      q.pending == [] && Shown(q.cards) == src[..q.count]
  {
    SettledRunShowsPrefix(src, Initial(src), actions);
  }

  lemma RemoveThenAdd(src: seq<Testimonial>, p: Page)
    requires Settled(src, p) && 0 < p.count < |src|
    ensures var b := AddClicked(src, RemoveClicked(src, p));
      && b.pending == [p.cards[p.count - 1].id]
      && b.cards == p.cards + [RenderCard(p.nextId, src[p.count])]
      && b.cards[p.count - 1] == p.cards[p.count - 1]
  {
  }

  lemma ShownGap(src: seq<Testimonial>, cards: seq<Card>, added: Card)
    requires 0 < |cards| < |src| && Shown(cards) == src[..|cards|]
    requires added.testimonial == src[|cards|]
    ensures Shown(cards[..|cards| - 1] + [added]) == src[..|cards| - 1] + [src[|cards|]]
  {
  }

  /** The callback of a Remove that was followed by an Add detaches the card the
      Remove chose, which is no longer the last one. */
  lemma AddThenFire(src: seq<Testimonial>, p: Page)
    requires Settled(src, p) && 0 < p.count < |src|
    ensures var c := TimerFired(src, AddClicked(src, RemoveClicked(src, p))).0;
      && c.pending == [] && c.count == p.count
      && c.cards == p.cards[..p.count - 1] + [RenderCard(p.nextId, src[p.count])]
  {
    var n := p.count;
    var b := AddClicked(src, RemoveClicked(src, p));
    RemoveThenAdd(src, p);
    FireDetaches(src, b, n - 1);
  }

  /** An Add while a removal is pending: the callback later removes the card
      chosen at click time, not the new last card, so the page ends with the
      newest testimonial after a gap instead of the first `count` ones. */
  lemma AddDuringPendingRemoval(src: seq<Testimonial>, p: Page)
    requires Settled(src, p) && 0 < p.count < |src|
    requires src[p.count - 1] != src[p.count]
    ensures var q := Run(src, p, [RemoveClick, AddClick, TimerTick]);
      && q.pending == [] && q.count == p.count
      && Shown(q.cards) == src[..p.count - 1] + [src[p.count]]
      && Shown(q.cards) != src[..q.count]
  {
    var n := p.count;
    RunThree(src, p, RemoveClick, AddClick, TimerTick);
    AddThenFire(src, p);
    ShownGap(src, p.cards, RenderCard(p.nextId, src[n]));
    var q := Run(src, p, [RemoveClick, AddClick, TimerTick]);
    assert Shown(q.cards)[n - 1] != src[..n][n - 1];
  }

  lemma RemoveTwice(src: seq<Testimonial>, p: Page)
    requires Settled(src, p) && p.count > 0
    ensures var b := RemoveClicked(src, RemoveClicked(src, p));
      && b.pending == [p.cards[p.count - 1].id, p.cards[p.count - 1].id]
      && b.cards == p.cards
  {
  }

  /** Two Remove clicks before the first callback runs both capture the same
      last card: the second `removeChild` throws before its decrement, so one
      card goes and one click is lost, without a double decrement. */
  lemma DoubleRemoveRemovesOne(src: seq<Testimonial>, p: Page)
    requires Settled(src, p) && p.count > 0
    ensures var q := Run(src, p, [RemoveClick, RemoveClick, TimerTick]);
      && q.count == p.count - 1
      && Shown(q.cards) == src[..p.count - 1]
      && q.pending == [p.cards[p.count - 1].id]
      && TimerFired(src, q) == (q.(pending := []), NotFound(p.cards[p.count - 1].id))
  {
    var n := p.count;
    var last := p.cards[n - 1];
    RunThree(src, p, RemoveClick, RemoveClick, TimerTick);
    var b := RemoveClicked(src, RemoveClicked(src, p));
    RemoveTwice(src, p);
    FireDetaches(src, b, n - 1);
    var c := TimerFired(src, b).0;
    assert c.cards == p.cards[..n - 1];
    assert Shown(c.cards) == src[..n - 1] by {
      assert Shown(p.cards) == src[..n];
    }
    WithoutKeepsDistinct(p.cards, n - 1);
    assert !HasCard(c.cards, last.id);
  }

  /** The section's closure state, updated in place by the listeners. */
  class TestimonialSection {
    var count: int
    const testimonials: seq<Testimonial>
    var cards: seq<Card>
    var addDisabled: bool
    var removeDisabled: bool
    var pending: seq<nat>
    var nextId: nat

    function Snapshot(): Page
      reads this
    {
      Page(count, cards, addDisabled, removeDisabled, pending, nextId)
    }

    /** Set-up, with the sample data. */
    constructor ()
      ensures testimonials == Source
      ensures Snapshot() == Initial(testimonials)
    {
      testimonials := Source;
      count, cards := 0, [];
      addDisabled, removeDisabled := false, true;
      pending, nextId := [], 0;
    }

    method ClickAdd()
      requires Valid(testimonials, Snapshot())
      modifies this
      ensures Snapshot() == AddClicked(testimonials, old(Snapshot()))
    {
      if count < |testimonials| {
        var card := RenderCard(nextId, testimonials[count]);
        nextId := nextId + 1;
        cards := cards + [card];
        count := count + 1;
        if count > 0 {
          removeDisabled := false;
        }
        if count >= |testimonials| {
          addDisabled := true;
        }
      }
    }

    method ClickRemove()
      requires Valid(testimonials, Snapshot())
      modifies this
      ensures Snapshot() == RemoveClicked(testimonials, old(Snapshot()))
    {
      if count > 0 {
        var lastCard := cards[|cards| - 1];
        pending := pending + [lastCard.id];
      }
    }

    /** The oldest pending removal callback runs. */
    method FireTimer() returns (outcome: Fired)
      requires Valid(testimonials, Snapshot())
      modifies this
      ensures (Snapshot(), outcome) == TimerFired(testimonials, old(Snapshot()))
    {
      if pending == [] {
        return NoTimer;
      }
      var id := pending[0];
      pending := pending[1..];
      var k := IndexOf(Ids(cards), id);
      if k == |cards| {
        return NotFound(id);
      }
      cards := cards[..k] + cards[k + 1..];
      count := count - 1;
      if count == 0 {
        removeDisabled := true;
      }
      if count < |testimonials| {
        addDisabled := false;
      }
      outcome := Detached(id);
    }
  }

  /** The walk-through of the section, from set-up with four testimonials: four
      Adds show the four testimonials and disable Add. */
  method FillSection(s: TestimonialSection)
    requires |s.testimonials| == 4 && s.Snapshot() == Initial(s.testimonials)
    modifies s
    ensures Valid(s.testimonials, s.Snapshot())
    ensures s.count == 4 && s.addDisabled && !s.removeDisabled && s.pending == []
    ensures Shown(s.cards) == s.testimonials
  {
    var src := s.testimonials;
    AddKeepsSettled(src, s.Snapshot());
    s.ClickAdd();
    assert s.count == 1 && !s.addDisabled && !s.removeDisabled;
    AddKeepsSettled(src, s.Snapshot());
    s.ClickAdd();
    AddKeepsSettled(src, s.Snapshot());
    s.ClickAdd();
    AddKeepsSettled(src, s.Snapshot());
    s.ClickAdd();
    assert s.count == 4;
  }

  /** Then one Remove, once its callback has run, takes the last card back and
      enables Add again. */
  method RemoveFromFullSection(s: TestimonialSection) returns (outcome: Fired)
    requires Valid(s.testimonials, s.Snapshot()) && |s.testimonials| == 4
    requires s.count == 4 && s.pending == [] && Shown(s.cards) == s.testimonials
    modifies s
    ensures Valid(s.testimonials, s.Snapshot())
    ensures outcome == Detached(old(s.cards[3].id))
    ensures s.count == 3 && !s.addDisabled && !s.removeDisabled && s.pending == []
    ensures Shown(s.cards) == s.testimonials[..3]
  {
    s.ClickRemove();
    assert s.count == 4 && |s.cards| == 4 && s.pending == [s.cards[3].id];
    IndexOfDistinct(s.cards, 3);
    outcome := s.FireTimer();
    assert Shown(s.cards) == s.testimonials[..3];
  }

  // The avatars of the sample data.

  lemma CakeyDelightsInitials()
    ensures Initials(CakeyDelights.name) == "SJ"
  {
    assert CakeyDelights.name == "Sarah" + " " + "Johnson";
    TwoWordInitials("Sarah", "Johnson");
  }

  lemma TechInnovationsInitials()
    ensures Initials(TechInnovations.name) == "MC"
  {
    assert TechInnovations.name == "Michael" + " " + "Chen";
    TwoWordInitials("Michael", "Chen");
  }

  lemma ProductiveTeamsInitials()
    ensures Initials(ProductiveTeams.name) == "JW"
  {
    assert ProductiveTeams.name == "Jessica" + " " + "Williams";
    TwoWordInitials("Jessica", "Williams");
  }

  lemma TravelExplorerInitials()
    ensures Initials(TravelExplorer.name) == "RG"
  {
    assert TravelExplorer.name == "Robert" + " " + "Garcia";
    TwoWordInitials("Robert", "Garcia");
  }
}
