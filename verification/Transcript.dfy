/**
 * CSBuFLO transcript mode of the client loop (clientloop.c, misc.c): packets of
 * a recorded trace are released one by one, each when enough has been received
 * or after five seconds of waiting.
 *
 * One client loop plays many pages, each with a trace of its own.  The clock, the
 * length of the output buffer, the bytes received, the server's acknowledgement
 * of a URL and the start of a page come in as events.  The early jump to the end
 * on an onload event is not taken.
 */
module Transcript {
  import opened Bytes

  const INT_MAX: nat := 0x7fff_ffff
  const PATIENCE: nat := 5_000_000

  /** A trace entry; the client's own packets have a negative size. */
  datatype Item = Item(size: int, expected: nat)

  /** Indices of the client's packets from position i on. */
  function ClientFrom(trace: seq<Item>, i: nat): seq<nat>
    decreases |trace| - i
  {
    if i >= |trace| then []
    else if trace[i].size < 0 then [i] + ClientFrom(trace, i + 1)
    else ClientFrom(trace, i + 1)
  }

  /** Why an item was let go: the credit it had covered its demand, or it had been blocked since then. */
  datatype Reason = Credit(spent: nat, have: nat) | Deadlock(since: nat, now: nat)

  datatype Release = Release(item: nat, size: int, reason: Reason)

  /** The flags of the first two packets of a page, and the server's acknowledgement. */
  datatype Marks = Marks(first: bool, second: bool, urlack: bool)

  /**
   * The record of the current page: what was queued, released and received,
   * whether an acknowledgement was already there when the page began, and whether
   * one has come since.
   */
  datatype Book = Book(queued: int, released: seq<Release>, received: nat, stale: bool, acked: bool)

  /** `index` and `cur` are the cursor of misc.c; `since` is deadlock_start, 0 when not set. */
  datatype State = State(
    index: int, cur: Option<nat>, waiting: bool, since: nat, marks: Marks, credit: nat, book: Book)

  // ----- The cursor

  /** The first client packet from i on, or the end. */
  function NextClient(trace: seq<Item>, i: nat): (n: nat)
    requires i <= |trace|
    ensures i <= n <= |trace| && (n < |trace| ==> trace[n].size < 0) && forall j :: i <= j < n ==> trace[j].size >= 0
    decreases |trace| - i
  {
    if i == |trace| || trace[i].size < 0 then i else NextClient(trace, i + 1)
  }

  /** move_to_next_st_item(0) */
  function Move(trace: seq<Item>, s: State): State {
    if s.index < 0 || s.index >= |trace| then s.(index := -1, cur := None) else
      var n := NextClient(trace, s.index);
      if n < |trace| then s.(index := n + 1, cur := Some(n)) else s.(index := -1, cur := None)
  }

  // ----- One turn

  /** How much must have been received: everything, in effect, until the server has acknowledged the URL. */
  function Effective(s: State, item: Item): nat {
    if !s.marks.first && s.marks.second && !s.marks.urlack then INT_MAX else item.expected
  }

  /** The bytes to write for an item; the first one takes along what is queued already. */
  function SizeOf(s: State, item: Item, outbuf: nat): int {
    if s.marks.first && outbuf > -item.size then outbuf else -item.size
  }

  /** The flags of the first and second packet after an item has been looked at. */
  function Flags(s: State): State {
    if s.marks.first then s.(marks := s.marks.(first := false, second := true))
    else if s.marks.second && s.marks.urlack then s.(marks := s.marks.(second := false, urlack := false))
    else s
  }

  function Let(s: State, r: Release): State {
    s.(waiting := false, since := 0,
       book := s.book.(queued := s.book.queued + r.size, released := s.book.released + [r]))
  }

  /** The second packet is no longer special. */
  function Unmarked(s: State): State { s.(marks := s.marks.(second := false)) }

  /** Wait, or give up waiting after five seconds. */
  function Blocked(s: State, i: nat, size: int, now: nat): State {
    var since := if s.since == 0 then now else s.since;
    if now >= since + PATIENCE then Let(Unmarked(s), Release(i, size, Deadlock(since, now)))
    else s.(waiting := true, since := since)
  }

  function Consider(trace: seq<Item>, s: State, now: nat, outbuf: nat): State
    requires s.cur.Some? ==> s.cur.value < |trace|
  {
    if s.cur.None? then s.(waiting := false) else
      var i := s.cur.value;
      var expected, size, t := Effective(s, trace[i]), SizeOf(s, trace[i], outbuf), Flags(s);
      if expected > s.credit then Blocked(t, i, size, now)
      else Let(t.(credit := s.credit - expected), Release(i, size, Credit(expected, s.credit)))
  }

  /** Unless a packet is waited for, the cursor moves first. */
  function Ready(trace: seq<Item>, s: State): State {
    if s.waiting then s else Move(trace, s)
  }

  /** The transcript branch of one pass through client_loop that is allowed to send. */
  function Turn(trace: seq<Item>, s: State, now: nat, outbuf: nat): State
    requires s.cur.Some? ==> s.cur.value < |trace|
  {
    Consider(trace, Ready(trace, s), now, outbuf)
  }

  // ----- Runs

  /** The loop with the transcript it plays; `active` is stmode 1. */
  datatype Session = Session(active: bool, trace: seq<Item>, s: State)
  {
    predicate InRange() { s.cur.Some? ==> s.cur.value < |trace| }
  }

  const EMPTY_BOOK := Book(0, [], 0, false, false)

  /** Before the first page. */
  const BOOT := Session(false, [], State(-1, None, false, 0, Marks(true, false, false), 0, EMPTY_BOOK))

  /**
   * What the switch to transcript mode sets: the cursor, the credit and the flag
   * of the first packet.  The other two flags keep their values.
   */
  function Fresh(s: State): State {
    s.(index := 0, marks := s.marks.(first := true), credit := 0, book := Book(0, [], 0, s.marks.urlack, false))
  }

  /** A pass that finds the transcript at its end may leave the mode. */
  datatype Event = Receive(len: nat) | UrlAck | Tick(now: nat, outbuf: nat, leave: bool) | Page(trace: seq<Item>)

  /** A page is taken up only outside transcript mode, and only there do passes do nothing to it. */
  function Step(x: Session, e: Event): Session
    requires x.InRange()
  {
    match e
    case Receive(len) => x.(s := x.s.(credit := x.s.credit + len, book := x.s.book.(received := x.s.book.received + len)))
    case UrlAck => x.(s := x.s.(marks := x.s.marks.(urlack := true), book := x.s.book.(acked := true)))
    case Tick(now, outbuf, leave) =>
      if !x.active then x else
        var t := Turn(x.trace, x.s, now, outbuf);
        Session(!(leave && t.cur.None?), x.trace, t)
    case Page(trace) => if x.active then x else Session(true, trace, Fresh(x.s))
  }

  lemma MoveInRange(trace: seq<Item>, s: State)
    ensures var t := Move(trace, s); t.cur.Some? ==> t.cur.value < |trace|
  {
  }

  lemma ConsiderFrame(trace: seq<Item>, s: State, now: nat, outbuf: nat)
    requires s.cur.Some? ==> s.cur.value < |trace|
    ensures var t := Consider(trace, s, now, outbuf); t.cur == s.cur && |t.book.released| >= |s.book.released|
  {
    hide Effective, SizeOf;
  }

  // ----- What every run keeps

  function Items(rs: seq<Release>): seq<nat> {
    if rs == [] then [] else Items(rs[..|rs| - 1]) + [rs[|rs| - 1].item]
  }

  function Spent(rs: seq<Release>): nat {
    if rs == [] then 0 else Spent(rs[..|rs| - 1]) + match rs[|rs| - 1].reason
                                                    case Credit(spent, _) => spent
                                                    case Deadlock(_, _) => 0
  }

  function Sizes(rs: seq<Release>): int {
    if rs == [] then 0 else Sizes(rs[..|rs| - 1]) + rs[|rs| - 1].size
  }

  function Head(cur: Option<nat>): seq<nat> {
    if cur.Some? then [cur.value] else []
  }

  function Ahead(trace: seq<Item>, index: int): seq<nat> {
    if index < 0 then [] else ClientFrom(trace, index)
  }

  /** The client packets not yet released, the one waited for first. */
  function Remaining(trace: seq<Item>, s: State): seq<nat> {
    (if s.waiting then Head(s.cur) else []) + Ahead(trace, s.index)
  }

  /** A release is justified by the entry's own demand, or by a wait of five seconds. */
  predicate Justified(trace: seq<Item>, r: Release) {
    r.item < |trace| && trace[r.item].size < 0 && r.size >= -trace[r.item].size &&
    match r.reason
    case Credit(spent, have) => have >= spent && (spent == trace[r.item].expected || spent == INT_MAX)
    case Deadlock(since, now) => now >= since + PATIENCE
  }

  ghost predicate Inv(trace: seq<Item>, s: State) {
    (s.cur.Some? ==> s.cur.value < |trace| && trace[s.cur.value].size < 0) &&
    (s.waiting ==> s.cur.Some?) && (s.since != 0 ==> s.waiting) &&
    Items(s.book.released) + Remaining(trace, s) == ClientFrom(trace, 0) &&
    s.credit + Spent(s.book.released) == s.book.received &&
    s.book.queued == Sizes(s.book.released) &&
    forall k :: 0 <= k < |s.book.released| ==> Justified(trace, s.book.released[k])
  }

  lemma {:induction false} ClientFromNext(trace: seq<Item>, i: nat)
    requires i <= |trace|
    ensures var n := NextClient(trace, i);
            ClientFrom(trace, i) == if n < |trace| then [n] + ClientFrom(trace, n + 1) else []
    decreases |trace| - i
  {
    if i < |trace| && trace[i].size >= 0 {
      ClientFromNext(trace, i + 1);
    }
  }

  /** Moving the cursor picks up the next packet and loses none. */
  lemma MoveKeeps(trace: seq<Item>, s: State)
    ensures var t := Move(trace, s);
            Ahead(trace, s.index) == Head(t.cur) + Ahead(trace, t.index) &&
            (t.cur.Some? ==> t.cur.value < |trace| && trace[t.cur.value].size < 0)
  {
    hide ClientFrom, NextClient;
    if 0 <= s.index < |trace| {
      ClientFromNext(trace, s.index);
    } else if s.index >= |trace| {
      ClientFromEnd(trace, s.index);
    }
  }

  lemma ClientFromEnd(trace: seq<Item>, i: nat)
    requires i >= |trace|
    ensures ClientFrom(trace, i) == []
  {
  }

  lemma ReleasedOne(rs: seq<Release>, r: Release)
    ensures Items(rs + [r]) == Items(rs) + [r.item]
    ensures Sizes(rs + [r]) == Sizes(rs) + r.size
    ensures Spent(rs + [r]) == Spent(rs) + if r.reason.Credit? then r.reason.spent else 0
  {
    assert (rs + [r])[..|rs|] == rs;
  }

  /** The state Consider works on: the cursor stands at a packet, or nothing is left. */
  ghost predicate Poised(trace: seq<Item>, s: State) {
    (s.cur.Some? ==> s.cur.value < |trace| && trace[s.cur.value].size < 0) &&
    (s.since != 0 ==> s.cur.Some?) &&
    Items(s.book.released) + (Head(s.cur) + Ahead(trace, s.index)) == ClientFrom(trace, 0) &&
    s.credit + Spent(s.book.released) == s.book.received && s.book.queued == Sizes(s.book.released) &&
    forall k :: 0 <= k < |s.book.released| ==> Justified(trace, s.book.released[k])
  }

  lemma PoisedForTurn(trace: seq<Item>, s: State)
    requires Inv(trace, s)
    ensures Poised(trace, Ready(trace, s))
  {
    hide ClientFrom, Ahead, Items, Spent, Sizes, Justified, Move;
    if !s.waiting {
      MoveKeeps(trace, s);
      MoveFrame(trace, s);
      assert Remaining(trace, s) == Ahead(trace, s.index);
    }
  }

  lemma MoveFrame(trace: seq<Item>, s: State)
    ensures var t := Move(trace, s); t == s.(index := t.index, cur := t.cur)
  {
  }

  lemma JustifiedItem(trace: seq<Item>, r: Release)
    requires Justified(trace, r)
    ensures r.item < |trace| && trace[r.item].size < 0
  {
  }

  lemma LetKeeps(trace: seq<Item>, s: State, r: Release)
    requires s.cur == Some(r.item) && Justified(trace, r)
    requires r.reason.Credit? ==> s.credit + r.reason.spent + Spent(s.book.released) == s.book.received
    requires r.reason.Deadlock? ==> s.credit + Spent(s.book.released) == s.book.received
    requires Items(s.book.released) + ([r.item] + Ahead(trace, s.index)) == ClientFrom(trace, 0)
    requires s.book.queued == Sizes(s.book.released) && forall k :: 0 <= k < |s.book.released| ==> Justified(trace, s.book.released[k])
    ensures Inv(trace, Let(s, r))
  {
    hide ClientFrom, Ahead, Items, Spent, Sizes, Justified;
    ReleasedOne(s.book.released, r);
    JustifiedItem(trace, r);
    var t := Let(s, r);
    var tail := Ahead(trace, s.index);
    assert Items(s.book.released) + ([r.item] + tail) == Items(s.book.released) + [r.item] + ([] + tail);
    assert forall k :: 0 <= k < |t.book.released| ==> t.book.released[k] == if k < |s.book.released| then s.book.released[k] else r;
  }

  lemma ConsiderKeeps(trace: seq<Item>, s: State, now: nat, outbuf: nat)
    requires Poised(trace, s)
    ensures Inv(trace, Consider(trace, s, now, outbuf))
  {
    hide ClientFrom, Ahead, Items, Spent, Sizes;
    if s.cur.Some? {
      var i := s.cur.value;
      var expected, size, t := Effective(s, trace[i]), SizeOf(s, trace[i], outbuf), Flags(s);
      if expected > s.credit {
        var since := if s.since == 0 then now else s.since;
        if now >= since + PATIENCE {
          LetKeeps(trace, Unmarked(t), Release(i, size, Deadlock(since, now)));
        }
      } else {
        LetKeeps(trace, t.(credit := s.credit - expected), Release(i, size, Credit(expected, s.credit)));
      }
    }
  }

  // ----- What a run has done

  /** The client's packets are listed in trace order, each once, and no other entry is. */
  lemma {:induction false} ClientFromSpec(trace: seq<Item>, i: nat)
    ensures forall k :: k in ClientFrom(trace, i) <==> i <= k < |trace| && trace[k].size < 0
    ensures forall a, b :: 0 <= a < b < |ClientFrom(trace, i)| ==> ClientFrom(trace, i)[a] < ClientFrom(trace, i)[b]
    decreases |trace| - i
  {
    if i < |trace| {
      ClientFromSpec(trace, i + 1);
      var rest := ClientFrom(trace, i + 1);
      if trace[i].size < 0 {
        assert ClientFrom(trace, i) == [i] + rest;
        forall b | 0 < b < |ClientFrom(trace, i)|
          ensures i < ClientFrom(trace, i)[b]
        {
          assert ClientFrom(trace, i)[b] == rest[b - 1] && rest[b - 1] in rest;
        }
      }
    }
  }

  // ----- The three flags

  predicate GaveUp(rs: seq<Release>) {
    exists k :: 0 <= k < |rs| && rs[k].reason.Deadlock?
  }

  /** How the flags follow from what has happened on the page. */
  ghost predicate FlagInv(s: State) {
    (s.marks.first <==> s.book.released == [] && !s.waiting) &&
    (!s.book.stale && !s.book.acked ==> !s.marks.urlack) &&
    (s.book.stale || s.book.acked ==> s.marks.urlack || (!s.marks.first && !s.marks.second)) &&
    (GaveUp(s.book.released) ==> !s.marks.second) &&
    (!s.book.stale && !s.book.acked && !s.marks.first && !GaveUp(s.book.released) ==> s.marks.second)
  }

  lemma FlagsOnConsider(trace: seq<Item>, s: State, now: nat, outbuf: nat)
    requires s.cur.Some? ==> s.cur.value < |trace|
    requires FlagInv(s) && (s.waiting ==> s.cur.Some?)
    ensures FlagInv(Consider(trace, s, now, outbuf))
  {
    hide SizeOf, Effective;
    if s.cur.Some? {
      var t := Consider(trace, s, now, outbuf);
      if t.book.released != s.book.released {
        var r := t.book.released[|s.book.released|];
        assert t.book.released == s.book.released + [r];
        GaveUpNext(s.book.released, r);
      }
    }
  }

  lemma GaveUpNext(rs: seq<Release>, r: Release)
    ensures GaveUp(rs + [r]) <==> GaveUp(rs) || r.reason.Deadlock?
  {
    if GaveUp(rs) {
      var k :| 0 <= k < |rs| && rs[k].reason.Deadlock?;
      assert (rs + [r])[k] == rs[k];
    }
    if r.reason.Deadlock? {
      assert (rs + [r])[|rs|] == r;
    }
  }

  /** From the second release on every packet has exactly its recorded size; the first may take more along. */
  predicate ExactSizes(trace: seq<Item>, rs: seq<Release>) {
    forall k :: 1 <= k < |rs| ==> rs[k].item < |trace| && rs[k].size == -trace[rs[k].item].size
  }

  lemma SizesOnConsider(trace: seq<Item>, s: State, now: nat, outbuf: nat)
    requires s.cur.Some? ==> s.cur.value < |trace|
    requires (s.book.released != [] ==> !s.marks.first) && ExactSizes(trace, s.book.released)
    ensures ExactSizes(trace, Consider(trace, s, now, outbuf).book.released)
  {
    hide Effective;
  }

  // ----- Sessions

  ghost predicate PageInv(trace: seq<Item>, s: State) {
    Inv(trace, s) && FlagInv(s) && ExactSizes(trace, s.book.released)
  }

  /** The mode is only left at the end of a transcript. */
  ghost predicate SessionInv(x: Session) {
    PageInv(x.trace, x.s) && (!x.active ==> !x.s.waiting && x.s.cur.None? && x.s.index < 0)
  }

  lemma BootInv()
    ensures SessionInv(BOOT)
  {
    hide Inv, FlagInv, ExactSizes;
    BootAccounts();
    BootFlags();
  }

  lemma BootAccounts()
    ensures Inv([], BOOT.s)
  {
    hide Justified, Items, Spent, Sizes, ClientFrom;
    EmptySums();
  }

  lemma BootFlags()
    ensures FlagInv(BOOT.s) && ExactSizes([], BOOT.s.book.released)
  {
  }

  lemma EmptySums()
    ensures Items([]) == [] && Spent([]) == 0 && Sizes([]) == 0 && ClientFrom([], 0) == []
  {
  }

  lemma InvRange(x: Session)
    requires SessionInv(x)
    ensures x.InRange() && (x.s.since != 0 ==> x.s.waiting) && (x.s.waiting ==> x.s.cur.Some? && x.active)
  {
  }

  lemma TurnKeeps(trace: seq<Item>, s: State, now: nat, outbuf: nat)
    requires PageInv(trace, s)
    ensures PageInv(trace, Turn(trace, s, now, outbuf))
  {
    hide ClientFrom, Ahead, Items, Spent, Sizes, Justified, Consider, Move, GaveUp, ExactSizes;
    MoveInRange(trace, s);
    MoveFrame(trace, s);
    PoisedForTurn(trace, s);
    ConsiderKeeps(trace, Ready(trace, s), now, outbuf);
    FlagsOnConsider(trace, Ready(trace, s), now, outbuf);
    SizesOnConsider(trace, Ready(trace, s), now, outbuf);
  }

  /** A cursor that finds nothing is at the end for good. */
  lemma TurnEnds(trace: seq<Item>, s: State, now: nat, outbuf: nat)
    requires PageInv(trace, s)
    ensures var t := Turn(trace, s, now, outbuf); t.cur.None? ==> !t.waiting && t.index < 0
  {
    hide ClientFrom, Ahead, Items, Spent, Sizes, Justified, Effective, SizeOf, GaveUp, ExactSizes, NextClient;
  }

  lemma FreshKeeps(trace: seq<Item>, s: State)
    requires !s.waiting && s.cur.None? && s.since == 0
    ensures PageInv(trace, Fresh(s))
  {
    assert [] + ([] + ClientFrom(trace, 0)) == ClientFrom(trace, 0);
  }

  lemma StepKeeps(x: Session, e: Event)
    requires SessionInv(x)
    ensures x.InRange() && SessionInv(Step(x, e))
  {
    InvRange(x);
    hide ClientFrom, Ahead, Items, Spent, Sizes, Justified, Turn, GaveUp, ExactSizes, Fresh;
    match e
    case Tick(now, outbuf, _) =>
      if x.active {
        TurnKeeps(x.trace, x.s, now, outbuf);
        TurnEnds(x.trace, x.s, now, outbuf);
      }
    case Page(trace) =>
      if !x.active {
        FreshKeeps(trace, x.s);
      }
    case _ =>
  }

  ghost function Run(x: Session, es: seq<Event>): (y: Session)
    requires SessionInv(x)
    ensures SessionInv(y)
    decreases |es|
  {
    if es == [] then x else
      StepKeeps(x, es[0]);
      Run(Step(x, es[0]), es[1..])
  }

  /** Whatever has happened since the loop was entered. */
  ghost function After(es: seq<Event>): (x: Session)
    ensures SessionInv(x)
  {
    BootInv();
    Run(BOOT, es)
  }

  lemma {:induction false} RunLast(x: Session, es: seq<Event>, e: Event)
    requires SessionInv(x)
    ensures Run(x, es).InRange() && Run(x, es + [e]) == Step(Run(x, es), e)
    decreases |es|
  {
    hide Step, SessionInv;
    InvRange(Run(x, es));
    if es == [] {
      assert es + [e] == [e] && [e][1..] == [];
      StepKeeps(x, e);
    } else {
      StepKeeps(x, es[0]);
      assert (es + [e])[1..] == es[1..] + [e];
      RunLast(Step(x, es[0]), es[1..], e);
    }
  }

  lemma AfterNext(es: seq<Event>, e: Event)
    ensures After(es).InRange() && After(es + [e]) == Step(After(es), e)
  {
    hide Step, SessionInv;
    BootInv();
    RunLast(BOOT, es, e);
  }

  // ----- What a run has done

  /**
   * Over every run, on the current page: the client's packets are released in
   * order and each once, every release is justified, the credit is what was
   * received less what was spent, and the bytes queued are those of the released
   * packets.  Outside transcript mode the last page has been played to its end.
   */
  lemma TranscriptRun(es: seq<Event>)
    ensures var x := After(es);
            Items(x.s.book.released) <= ClientFrom(x.trace, 0) &&
            (forall k :: 0 <= k < |x.s.book.released| ==> Justified(x.trace, x.s.book.released[k])) &&
            x.s.credit == x.s.book.received - Spent(x.s.book.released) && x.s.book.queued == Sizes(x.s.book.released) &&
            (!x.active ==> Items(x.s.book.released) == ClientFrom(x.trace, 0))
  {
    hide After, Items, Spent, Sizes, ClientFrom, Justified, FlagInv, ExactSizes;
  }

  /** Over every run the released sizes follow the trace. */
  lemma SizesFollowTrace(es: seq<Event>)
    ensures ExactSizes(After(es).trace, After(es).s.book.released)
  {
    hide After, Inv, FlagInv, ExactSizes;
  }

  /**
   * In any run an entry's own demand counts, except that practically endless
   * credit is asked for from the first look at a page's first packet on, as long
   * as no acknowledgement has come on this page, none was left over from before
   * it, and the client has not given up waiting on it.
   */
  lemma EffectiveDemand(es: seq<Event>, item: Item)
    ensures var s := After(es).s;
            Effective(s, item) ==
            if (s.book.released != [] || s.waiting) && !s.book.acked && !s.book.stale && !GaveUp(s.book.released) then INT_MAX else item.expected
  {
    hide After, Inv, GaveUp, ExactSizes;
  }

  /** What those two words mean: the acknowledgement flag when the page began, and whether it has been set since. */
  lemma AcknowledgedSince(es: seq<Event>, e: Event)
    ensures var x, y := After(es), After(es + [e]);
            if e.Page? && !x.active then y.s.book.stale == x.s.marks.urlack && !y.s.book.acked
            else y.s.book.stale == x.s.book.stale && y.s.book.acked == (x.s.book.acked || e == UrlAck)
  {
    hide After, SessionInv, Move, Effective, SizeOf;
    AfterNext(es, e);
    MoveFrame(After(es).trace, After(es).s);
  }

  /** A look at a packet other than a page's first, while the second is still special. */
  predicate LooksAtSecond(x: Session, e: Event) {
    e.Tick? && x.active && Ready(x.trace, x.s).cur.Some? && !x.s.marks.first && x.s.marks.second
  }

  /** An acknowledgement is kept, across pages too, until such a look uses it up. */
  lemma AcknowledgementUsed(es: seq<Event>, e: Event)
    ensures var x, y := After(es), After(es + [e]);
            y.s.marks.urlack <==> e == UrlAck || (x.s.marks.urlack && !LooksAtSecond(x, e))
  {
    hide After, SessionInv, Move, Effective, SizeOf;
    AfterNext(es, e);
    MoveFrame(After(es).trace, After(es).s);
  }

  const SLOW_PAGE := [Item(-10, 0), Item(-10, 100)]

  /** Give up on the second packet, get the acknowledgement too late, and begin the next page. */
  const LATE_ACK := [Page(SLOW_PAGE), Tick(1, 0, false), Tick(2, 0, false), Tick(5_000_002, 0, false), UrlAck,
                     Tick(5_000_003, 0, true), Page(SLOW_PAGE), Tick(5_000_004, 0, false)]

  /**
   * An acknowledgement that comes after the client has given up stays behind: on
   * the next page the second packet's own demand counts although that page's URL
   * has not been acknowledged.
   */
  lemma LateAcknowledgement()
    ensures var s := After(LATE_ACK).s;
            s.book.released != [] && !s.book.acked && !GaveUp(s.book.released) && s.book.stale && Effective(s, SLOW_PAGE[1]) == 100
  {
    hide After, SessionInv, Step;
    var es := LATE_ACK;
    AfterNothing();
    assert es[..1] == [] + [es[0]] && es[..2] == es[..1] + [es[1]] && es[..3] == es[..2] + [es[2]];
    AfterNext([], es[0]);
    AfterNext(es[..1], es[1]);
    AfterNext(es[..2], es[2]);
    assert es[..4] == es[..3] + [es[3]] && es[..5] == es[..4] + [es[4]] && es[..6] == es[..5] + [es[5]];
    AfterNext(es[..3], es[3]);
    AfterNext(es[..4], es[4]);
    AfterNext(es[..5], es[5]);
    assert es[..7] == es[..6] + [es[6]] && es == es[..7] + [es[7]];
    AfterNext(es[..6], es[6]);
    AfterNext(es[..7], es[7]);
    FirstPageGivesUp();
    SecondPageStarts();
    assert es[0] == Page(SLOW_PAGE) && es[1] == Tick(1, 0, false) && es[2] == Tick(2, 0, false) && es[3] == Tick(5_000_002, 0, false);
  }

  const PLAYED := Book(20, [Release(0, 10, Credit(0, 0)), Release(1, 10, Deadlock(2, 5_000_002))], 0, false, false)

  lemma FirstPageGivesUp()
    ensures var x1 := Step(BOOT, Page(SLOW_PAGE));
            x1.InRange() &&
            (var x2 := Step(x1, Tick(1, 0, false));
             x2.InRange() &&
             (var x3 := Step(x2, Tick(2, 0, false));
              x3.InRange() &&
              Step(x3, Tick(5_000_002, 0, false)) ==
              Session(true, SLOW_PAGE, State(2, Some(1), false, 0, Marks(false, false, false), 0, PLAYED))))
  {
    var t := SLOW_PAGE;
    assert NextClient(t, 0) == 0 && NextClient(t, 1) == 1;
    var x1 := Step(BOOT, Page(t));
    var x2 := Step(x1, Tick(1, 0, false));
    assert x2.s == State(1, Some(0), false, 0, Marks(false, true, false), 0, Book(10, [Release(0, 10, Credit(0, 0))], 0, false, false));
    var x3 := Step(x2, Tick(2, 0, false));
    assert x3.s == State(2, Some(1), true, 2, Marks(false, true, false), 0, x2.s.book);
  }

  lemma SecondPageStarts()
    ensures var x4 := Session(true, SLOW_PAGE, State(2, Some(1), false, 0, Marks(false, false, false), 0, PLAYED));
            var x5 := Step(x4, UrlAck);
            x5.InRange() &&
            (var x6 := Step(x5, Tick(5_000_003, 0, true));
             x6.InRange() &&
             (var x7 := Step(x6, Page(SLOW_PAGE));
              x7.InRange() &&
              Step(x7, Tick(5_000_004, 0, false)).s ==
              State(1, Some(0), false, 0, Marks(false, true, true), 0, Book(10, [Release(0, 10, Credit(0, 0))], 0, true, false))))
  {
    var t := SLOW_PAGE;
    assert NextClient(t, 0) == 0;
    var x4 := Session(true, t, State(2, Some(1), false, 0, Marks(false, false, false), 0, PLAYED));
    var x6 := Step(Step(x4, UrlAck), Tick(5_000_003, 0, true));
    assert x6 == Session(false, t, State(-1, None, false, 0, Marks(false, false, true), 0, PLAYED.(acked := true)));
  }

  lemma AfterNothing()
    ensures After([]) == BOOT
  {
  }

  /** From the n-th event to the end the client has been waiting for the same packet of the same page. */
  ghost predicate WaitingFrom(es: seq<Event>, n: nat) {
    var x := After(es);
    forall m :: n < m <= |es| ==>
      var y := After(es[..m]);
      y.s.waiting && y.s.cur == x.s.cur && y.s.book.released == x.s.book.released && y.trace == x.trace
  }

  lemma StepSince(x: Session, e: Event)
    requires SessionInv(x)
    ensures x.InRange()
    ensures var y := Step(x, e);
            y.s.since != 0 ==>
              y.s.waiting && y.s.book.released == x.s.book.released && y.trace == x.trace &&
              if x.s.since != 0 then y.s.since == x.s.since && y.s.cur == x.s.cur && x.s.waiting
              else e.Tick? && e.now == y.s.since
  {
    InvRange(x);
    hide SessionInv;
    if e.Tick? && x.active {
      TurnSince(x.trace, x.s, e.now, e.outbuf);
    }
  }

  lemma TurnSince(trace: seq<Item>, s: State, now: nat, outbuf: nat)
    requires s.cur.Some? ==> s.cur.value < |trace|
    requires (s.since != 0 ==> s.waiting) && (s.waiting ==> s.cur.Some?)
    ensures var t := Turn(trace, s, now, outbuf);
            t.since != 0 ==>
              t.waiting && t.book.released == s.book.released &&
              if s.since != 0 then t.since == s.since && t.cur == s.cur else now == t.since
  {
    hide Move, Effective, SizeOf;
    MoveInRange(trace, s);
    MoveFrame(trace, s);
    MoveFinds(trace, s);
  }

  lemma MoveFinds(trace: seq<Item>, s: State)
    ensures var t := Move(trace, s); t.cur.None? ==> t.index < 0
  {
  }

  /** While deadlock_start is set it is the time of a turn since when the client has been blocked on the current packet. */
  lemma {:induction false} SinceExplained(es: seq<Event>)
    ensures After(es).s.since != 0 ==>
              exists n :: 0 <= n < |es| && es[n].Tick? && es[n].now == After(es).s.since && WaitingFrom(es, n)
    decreases |es|
  {
    hide After, Step, SessionInv;
    if es == [] {
      AfterNothing();
    } else {
      var l := |es| - 1;
      var before, e := es[..l], es[l];
      assert es == before + [e] && es[..l + 1] == es;
      AfterNext(before, e);
      var x, y := After(before), After(es);
      StepSince(x, e);
      if y.s.since != 0 {
        if x.s.since != 0 {
          SinceExplained(before);
          var n :| 0 <= n < |before| && before[n].Tick? && before[n].now == x.s.since && WaitingFrom(before, n);
          forall m | n < m <= |es|
            ensures var u := After(es[..m]);
                    u.s.waiting && u.s.cur == y.s.cur && u.s.book.released == y.s.book.released && u.trace == y.trace
          {
            if m <= l {
              assert es[..m] == before[..m];
            }
          }
          assert es[n] == before[n] && WaitingFrom(es, n);
        } else {
          assert WaitingFrom(es, l);
        }
      }
    }
  }

  /** A release for deadlock comes at least five seconds after a turn since when that very packet was waited for. */
  lemma DeadlockWaited(es: seq<Event>, e: Event, r: Release)
    requires After(es + [e]).s.book.released == After(es).s.book.released + [r] && r.reason.Deadlock?
    ensures exists n :: 0 <= n < |es| && es[n].Tick? && e.Tick? && es[n].now + PATIENCE <= e.now && WaitingFrom(es, n)
    ensures var x := After(es); x.s.waiting && x.s.cur == Some(r.item)
  {
    hide After, SessionInv;
    AfterNext(es, e);
    SinceExplained(es);
    DeadlockStep(After(es), e, r);
  }

  lemma DeadlockStep(x: Session, e: Event, r: Release)
    requires SessionInv(x) && x.InRange() && Step(x, e).s.book.released == x.s.book.released + [r] && r.reason.Deadlock?
    ensures e.Tick? && x.s.since != 0 && x.s.since + PATIENCE <= e.now && x.s.waiting && x.s.cur == Some(r.item)
  {
    InvRange(x);
    hide SessionInv, Effective, SizeOf, Move;
    MoveInRange(x.trace, x.s);
    MoveFrame(x.trace, x.s);
    assert Step(x, e).s.book.released[|x.s.book.released|] == r;
  }

  /** Progress: two turns five seconds apart release a packet whenever one is left. */
  lemma TwoTurnsRelease(x: Session, now: nat, outbuf: nat, now': nat, outbuf': nat)
    requires SessionInv(x) && Remaining(x.trace, x.s) != [] && 0 < now && x.s.since <= now && now + PATIENCE <= now'
    ensures x.InRange() && var y := Step(x, Tick(now, outbuf, false));
            SessionInv(y) && y.InRange() && |Step(y, Tick(now', outbuf', false)).s.book.released| > |x.s.book.released|
  {
    var e := Tick(now, outbuf, false);
    StepKeeps(x, e);
    var y := Step(x, e);
    InvRange(x);
    InvRange(y);
    SomethingLeft(x);
    hide SessionInv, Turn;
    FirstTurn(x.trace, x.s, now, outbuf);
    SecondTurn(x.trace, y.s, now', outbuf');
  }

  lemma SomethingLeft(x: Session)
    requires SessionInv(x) && Remaining(x.trace, x.s) != []
    ensures x.active && Ready(x.trace, x.s).cur.Some?
  {
    hide ClientFrom, NextClient, Items, Spent, Sizes, Justified, GaveUp, ExactSizes;
    if !x.s.waiting {
      MoveKeeps(x.trace, x.s);
      assert Remaining(x.trace, x.s) == Ahead(x.trace, x.s.index);
    }
  }

  /** A turn with a packet in hand releases it or blocks on it. */
  lemma FirstTurn(trace: seq<Item>, s: State, now: nat, outbuf: nat)
    requires s.cur.Some? ==> s.cur.value < |trace|
    requires Ready(trace, s).cur.Some? && s.since <= now && 0 < now
    ensures var t := Turn(trace, s, now, outbuf);
            |t.book.released| > |s.book.released| || (t.waiting && |t.book.released| == |s.book.released| && 0 < t.since <= now)
  {
    hide Move, Effective, SizeOf;
    MoveInRange(trace, s);
    MoveFrame(trace, s);
  }

  /** A turn five seconds after a block releases the packet in any case. */
  lemma SecondTurn(trace: seq<Item>, s: State, now: nat, outbuf: nat)
    requires s.cur.Some? ==> s.cur.value < |trace|
    requires s.waiting ==> s.cur.Some?
    ensures var t := Turn(trace, s, now, outbuf);
            |t.book.released| >= |s.book.released| &&
            (s.waiting && 0 < s.since && s.since + PATIENCE <= now ==> |t.book.released| > |s.book.released|)
  {
    hide Move, Effective, SizeOf;
    MoveInRange(trace, s);
    MoveFrame(trace, s);
  }

  // ----- To the end of a page

  /** At most so many turns are still needed: two for each packet left, one less once the first of them is waited for. */
  function TurnsLeft(x: Session): int {
    2 * |Remaining(x.trace, x.s)| - if x.s.waiting && x.s.since > 0 then 1 else 0
  }

  /** No page begins, and the turns are five seconds apart, the first of them counted from `last`. */
  predicate Spaced(es: seq<Event>, last: nat) {
    es == [] ||
    match es[0]
    case Tick(now, _, _) => last + PATIENCE <= now && Spaced(es[1..], now)
    case Page(_) => false
    case _ => Spaced(es[1..], last)
  }

  function Turns(es: seq<Event>): nat {
    if es == [] then 0 else (if es[0].Tick? then 1 else 0) + Turns(es[1..])
  }

  lemma {:induction false} ItemsLength(rs: seq<Release>)
    ensures |Items(rs)| == |rs|
  {
    if rs != [] {
      ItemsLength(rs[..|rs| - 1]);
    }
  }

  lemma CountLeft(x: Session)
    requires SessionInv(x)
    ensures |x.s.book.released| + |Remaining(x.trace, x.s)| == |ClientFrom(x.trace, 0)|
    ensures TurnsLeft(x) >= 0
    ensures TurnsLeft(x) == 0 ==> Items(x.s.book.released) == ClientFrom(x.trace, 0)
    ensures !x.active ==> TurnsLeft(x) == 0
  {
    hide ClientFrom, Items, Spent, Sizes, Justified, FlagInv, ExactSizes;
    ItemsLength(x.s.book.released);
  }

  /** A turn five seconds after the last brings the end of the page closer. */
  lemma TickDescends(x: Session, e: Event, last: nat)
    requires SessionInv(x) && e.Tick? && x.s.since <= last && last + PATIENCE <= e.now
    ensures x.InRange() && SessionInv(Step(x, e))
    ensures var y := Step(x, e);
            y.trace == x.trace && y.s.since <= e.now && (TurnsLeft(y) < TurnsLeft(x) || TurnsLeft(y) == 0)
  {
    StepKeeps(x, e);
    var y := Step(x, e);
    InvRange(x);
    InvRange(y);
    CountLeft(x);
    CountLeft(y);
    if x.active {
      if TurnsLeft(x) > 0 {
        SomethingLeft(x);
      }
      hide SessionInv, Turn, Remaining, ClientFrom;
      TurnSince(x.trace, x.s, e.now, e.outbuf);
      SecondTurn(x.trace, x.s, e.now, e.outbuf);
      if TurnsLeft(x) > 0 {
        FirstTurn(x.trace, x.s, e.now, e.outbuf);
      }
    }
  }

  /** Progress to the end: enough turns five seconds apart, whatever arrives meanwhile, release every packet of the page. */
  lemma {:induction false} PlaysToEnd(x: Session, es: seq<Event>, last: nat)
    requires SessionInv(x) && x.s.since <= last && Spaced(es, last) && Turns(es) >= TurnsLeft(x)
    ensures var y := Run(x, es); y.trace == x.trace && Items(y.s.book.released) == ClientFrom(x.trace, 0)
    decreases |es|
  {
    hide SessionInv, Items, ClientFrom, TurnsLeft;
    CountLeft(x);
    if es != [] {
      var e := es[0];
      StepKeeps(x, e);
      if e.Tick? {
        TickDescends(x, e, last);
        CountLeft(Step(x, e));
        PlaysToEnd(Step(x, e), es[1..], e.now);
      } else {
        ArrivalKeepsTurns(x, e);
        PlaysToEnd(Step(x, e), es[1..], last);
      }
    }
  }

  lemma ArrivalKeepsTurns(x: Session, e: Event)
    requires x.InRange() && (e.Receive? || e.UrlAck?)
    ensures var y := Step(x, e); y.trace == x.trace && y.s.since == x.s.since && TurnsLeft(y) == TurnsLeft(x)
  {
  }

  // ----- The loop with its variables updated in place

  class Client {
    var active: bool
    var trace: seq<Item>
    var index: int
    var cur: Option<nat>
    var waiting: bool
    var since: nat
    var first: bool
    var second: bool
    var urlack: bool
    var credit: nat
    var queued: int
    ghost var released: seq<Release>
    ghost var received: nat
    ghost var stale: bool
    ghost var acked: bool

    ghost predicate Valid()
      reads this
    {
      cur.Some? ==> cur.value < |trace|
    }

    ghost function Record(): State
      reads this
    {
      State(index, cur, waiting, since, Marks(first, second, urlack), credit, Book(queued, released, received, stale, acked))
    }

    ghost function View(): Session
      reads this
    {
      Session(active, trace, Record())
    }

    constructor ()
      ensures Valid() && View() == BOOT
    {
      active, trace := false, [];
      index, cur, waiting, since := -1, None, false, 0;
      first, second, urlack, credit, queued := true, false, false, 0, 0;
      released, received, stale, acked := [], 0, false, false;
    }

    /** packet_process_incoming */
    method ProcessIncoming(len: nat)
      requires Valid()
      modifies this`credit, this`received
      ensures Valid() && View() == Step(old(View()), Receive(len))
    {
      credit := credit + len;
      received := received + len;
    }

    /** The server's acknowledgement of a URL. */
    method Acknowledged()
      requires Valid()
      modifies this`urlack, this`acked
      ensures Valid() && View() == Step(old(View()), UrlAck)
    {
      urlack := true;
      acked := true;
    }

    /** A page whose URL has a trace: taken up unless a transcript is being played. */
    method TakeUp(page: seq<Item>)
      requires Valid() && (!active ==> cur.None?)
      modifies this
      ensures Valid() && View() == Step(old(View()), Page(page))
    {
      hide Turn, Fresh;
      if active {
        return;
      }
      trace, active := page, true;
      Rewind();
    }

    method Rewind()
      modifies this`index, this`credit, this`first, this`queued, this`released, this`received, this`stale, this`acked
      ensures Record() == Fresh(old(Record()))
    {
      index, credit, first := 0, 0, true;
      queued, released, received, stale, acked := 0, [], 0, urlack, false;
    }

    /** move_to_next_st_item(0) */
    method MoveToNext()
      modifies this`index, this`cur
      ensures Valid() && Record() == Move(trace, old(Record()))
    {
      if index < 0 || index >= |trace| {
        cur, index := None, -1;
        return;
      }
      while index < |trace| && trace[index].size >= 0
        invariant 0 <= index <= |trace|
        invariant NextClient(trace, index) == NextClient(trace, old(index))
      {
        index := index + 1;
      }
      if index < |trace| {
        cur := Some(index);
        index := index + 1;
      } else {
        cur, index := None, -1;
      }
    }

    /** The transcript branch of the loop; `leave` is whether a transcript at its end is over. */
    method Pass(now: nat, outbuf: nat, leave: bool)
      requires Valid()
      modifies this
      ensures Valid() && View() == Step(old(View()), Tick(now, outbuf, leave))
    {
      hide Move, NextClient, Consider;
      if !active {
        return;
      }
      MoveInRange(trace, Record());
      MoveFrame(trace, Record());
      if !waiting {
        MoveToNext();
      }
      if cur.None? {
        NothingToConsider(trace, Record(), now, outbuf);
      }
      ConsiderFrame(trace, Record(), now, outbuf);
      if cur.None? {
        waiting := false;
        if leave {
          active := false;
        }
      } else {
        ConsiderItem(cur.value, now, outbuf);
      }
    }

    method ConsiderItem(i: nat, now: nat, outbuf: nat)
      requires Valid() && cur == Some(i)
      modifies this`waiting, this`since, this`first, this`second, this`urlack, this`credit, this`queued, this`released
      ensures Record() == Consider(trace, old(Record()), now, outbuf)
    {
      hide Effective, SizeOf, Flags, Blocked, Let;
      var expected, size := LookAt(trace[i], outbuf);
      if expected > credit {
        Block(i, size, now);
      } else {
        LetGo(i, size, expected);
      }
    }

    /** Enough received: the demand is spent and the item sent. */
    method LetGo(i: nat, size: int, expected: nat)
      requires expected <= credit
      modifies this`waiting, this`since, this`credit, this`queued, this`released
      ensures Record() == Let(old(Record()).(credit := old(credit) - expected), Release(i, size, Credit(expected, old(credit))))
    {
      released := released + [Release(i, size, Credit(expected, credit))];
      waiting, since := false, 0;
      if expected > 0 {
        credit := credit - expected;
      }
      queued := queued + size;
    }

    /** The demand and the size of an item; the first two looks are special. */
    method LookAt(item: Item, outbuf: nat) returns (expected: nat, size: int)
      modifies this`first, this`second, this`urlack
      ensures Record() == Flags(old(Record()))
      ensures expected == Effective(old(Record()), item) && size == SizeOf(old(Record()), item, outbuf)
    {
      size, expected := -item.size, item.expected;
      if first {
        first, second := false, true;
        if outbuf > size {
          size := outbuf;
        }
      } else if second {
        if urlack {
          urlack, second := false, false;
        } else {
          expected := INT_MAX;
        }
      }
    }

    /** Not enough received: wait, for five seconds at most. */
    method Block(i: nat, size: int, now: nat)
      modifies this`waiting, this`since, this`second, this`queued, this`released
      ensures Record() == Blocked(old(Record()), i, size, now)
    {
      waiting := true;
      if since == 0 {
        since := now;
      }
      if now >= since + PATIENCE {
        released := released + [Release(i, size, Deadlock(since, now))];
        waiting, second, since := false, false, 0;
      }
      if !waiting {
        queued := queued + size;
      }
    }
  }

  lemma NothingToConsider(trace: seq<Item>, s: State, now: nat, outbuf: nat)
    requires s.cur.None?
    ensures Consider(trace, s, now, outbuf) == s.(waiting := false)
  {
  }
}
