/** `TitleBookUseListener`: right-clicking with a title book grants the
    title the book names, unless the holder already owns it or has no free
    slot left, and then uses up one book.

    The listener chains three asynchronous calls (`hasTitle`, `isFull`,
    `addTitle`); each callback runs only when the call before it completes.
    `readUp` is the database's health for the two checks, `writeUp` for
    the grant.
 */
module BookListener {
  import opened Outcomes
  import opened Strings
  import opened TitleModel
  import opened Tables
  import opened Redis
  import opened Storage
  import opened Coherence
  import opened Manager
  import opened Cluster

  /** An item stack: its size and, for a title book, the title name kept in
      its persistent data (`TitleBookManager.isTitleBook` / `getTitleName`;
      a stack without item meta has no name). */
  datatype Item = Item(amount: int, bookTitle: Option<string>)

  datatype Hand = MainHand | OffHand

  /** The two hand slots of the player; `None` is an empty slot. */
  datatype Hands = Hands(main: Option<Item>, off: Option<Item>)

  /** The action names containing this word are the right clicks. */
  const RightClick := "RIGHT_CLICK"

  function InHand(h: Hands, hand: Hand): Option<Item> {
    match hand
    case MainHand => h.main
    case OffHand => h.off
  }

  function WithHand(h: Hands, hand: Hand, slot: Option<Item>): Hands {
    match hand
    case MainHand => h.(main := slot)
    case OffHand => h.(off := slot)
  }

  predicate IsTitleBook(slot: Option<Item>) {
    slot.Some? && slot.value.bookTitle.Some?
  }

  /** How many books naming `name` a slot holds. */
  function Books(slot: Option<Item>, name: string): int {
    if slot.Some? && slot.value.bookTitle == Some(name) then slot.value.amount else 0
  }

  function HeldBooks(h: Hands, name: string): int {
    Books(h.main, name) + Books(h.off, name)
  }

  function Other(hand: Hand): Hand {
    match hand
    case MainHand => OffHand
    case OffHand => MainHand
  }

  /** Using up the book as the listener is written: a stack of more than
      one shrinks in the hand that was used, but a last book is removed by
      emptying the MAIN hand, whichever hand held it. */
  function ConsumeAsWritten(h: Hands, hand: Hand): Hands
    requires InHand(h, hand).Some?
  {
    var it := InHand(h, hand).value;
    if it.amount > 1 then WithHand(h, hand, Some(it.(amount := it.amount - 1)))
    else h.(main := None)
  }

  /** A single book in the off hand, with something else in the main hand:
      the book survives and the main-hand item is destroyed. */
  lemma ConsumeAsWrittenHitsMainHand()
    ensures var h := Hands(Some(Item(1, None)), Some(Item(1, Some("hero"))));
      var r := ConsumeAsWritten(h, OffHand);
      HeldBooks(r, "hero") == HeldBooks(h, "hero") && r.main == None && h.main != None
  {
  }

  /** Used from the main hand, the code as written does what was meant. */
  lemma ConsumeAsWrittenMainHand(h: Hands)
    requires h.main.Some?
    ensures ConsumeAsWritten(h, MainHand) == Consume(h, MainHand)
  {
  }

  /** Using up one book from the hand that held it. */
  function Consume(h: Hands, hand: Hand): (r: Hands)
    requires InHand(h, hand).Some?
    ensures IsTitleBook(InHand(h, hand)) && InHand(h, hand).value.amount >= 1 ==>
      var name := InHand(h, hand).value.bookTitle.value;
      HeldBooks(r, name) == HeldBooks(h, name) - 1
    ensures InHand(r, Other(hand)) == InHand(h, Other(hand))
    ensures InHand(r, hand).None? || InHand(r, hand).value.bookTitle == InHand(h, hand).value.bookTitle
  {
    var it := InHand(h, hand).value;
    if it.amount > 1 then WithHand(h, hand, Some(it.(amount := it.amount - 1)))
    else WithHand(h, hand, None)
  }

  /** Where the listener stopped. `Unanswered` is a check whose future never
      completed, so its callback never ran. */
  datatype Verdict = Ignored | Unanswered | AlreadyOwned | SlotsFull | Granted

  datatype Use = Use(verdict: Verdict, cancelled: bool, hands: Hands, local: Local, shared: Shared)

  /** `onPlayerInteract` for player `u` acting with `hand`. */
  function OnInteract(f: Codecs, c: Client, loc: Local, sh: Shared, u: Uuid, action: string, hand: Hand,
                      hands: Hands, now: int, readUp: bool, writeUp: bool): (r: Use)
    ensures r.cancelled <==> Contains(action, RightClick) && IsTitleBook(InHand(hands, hand))
    ensures !r.cancelled ==> r == Use(Ignored, false, hands, loc, sh)
    ensures r.verdict == Granted <==>
      r.cancelled &&
      Manager.HasTitle(f, c, loc, sh, u, InHand(hands, hand).value.bookTitle.value, readUp).out == Done(false) &&
      var s := Manager.HasTitle(f, c, loc, sh, u, InHand(hands, hand).value.bookTitle.value, readUp);
      Manager.IsFull(f, c, s.local, s.shared, u, readUp).out == Done(false)
    ensures r.verdict != Granted ==> r.hands == hands && r.shared.store == sh.store
    ensures r.verdict == Granted && InHand(hands, hand).value.amount >= 1 ==>
      var name := InHand(hands, hand).value.bookTitle.value;
      HeldBooks(r.hands, name) == HeldBooks(hands, name) - 1 &&
      InHand(r.hands, Other(hand)) == InHand(hands, Other(hand))
    ensures r.verdict == Granted && writeUp ==>
      var name := InHand(hands, hand).value.bookTitle.value;
      name in Owned(r.shared.store, u) && r.shared.store == UpsertTitle(sh.store, u, name, now).store
    ensures r.verdict == Granted && !writeUp ==> r.shared.store == sh.store
  {
    var item := InHand(hands, hand);
    if !Contains(action, RightClick) || !IsTitleBook(item) then Use(Ignored, false, hands, loc, sh)
    else
      var name := item.value.bookTitle.value;
      var owned := Manager.HasTitle(f, c, loc, sh, u, name, readUp);
      if !owned.out.Done? then Use(Unanswered, true, hands, owned.local, owned.shared)
      else if owned.out.value then Use(AlreadyOwned, true, hands, owned.local, owned.shared)
      else
        var full := Manager.IsFull(f, c, owned.local, owned.shared, u, readUp);
        if !full.out.Done? then Use(Unanswered, true, hands, full.local, full.shared)
        else if full.out.value then Use(SlotsFull, true, hands, full.local, full.shared)
        else
          var added := Manager.AddTitle(f, c, full.local, full.shared, u, name, now, writeUp);
          Use(Granted, true, Consume(hands, hand), added.local, added.shared)
  }

  /** With the caches agreeing with the tables and the database answering
      the checks, the listener grants exactly the titles the holder lacks
      while a slot is free, and the grant adds that one title. */
  lemma BookDecision(f: Codecs, c: Client, loc: Local, sh: Shared, u: Uuid, action: string, hand: Hand,
                     hands: Hands, now: int, writeUp: bool)
    requires Wf(f) && CacheCoherent(f, sh) && LocalCoherent(loc, sh.store)
    requires Contains(action, RightClick) && IsTitleBook(InHand(hands, hand))
    ensures var name := InHand(hands, hand).value.bookTitle.value;
      var r := OnInteract(f, c, loc, sh, u, action, hand, hands, now, true, writeUp);
      && (r.verdict == AlreadyOwned <==> name in Owned(sh.store, u))
      && (r.verdict == SlotsFull <==> name !in Owned(sh.store, u) && |Owned(sh.store, u)| >= MaxTitles)
      && (r.verdict == Granted <==> name !in Owned(sh.store, u) && |Owned(sh.store, u)| < MaxTitles)
      && (r.verdict == Granted && writeUp ==> Owned(r.shared.store, u) == Owned(sh.store, u)[name := now])
  {
    var name := InHand(hands, hand).value.bookTitle.value;
    var owned := Manager.HasTitle(f, c, loc, sh, u, name, true);
    LoadReadsStore(f, c, sh, u, true);
    LoadKeepsCoherent(f, c, sh, u, true);
    assert owned.out == Done(name in Owned(sh.store, u));
    assert owned.shared.store == sh.store && CacheCoherent(f, owned.shared);
    LoadReadsStore(f, c, owned.shared, u, true);
    var load := Manager.LoadTitles(f, c, owned.local, owned.shared, u, true);
    assert load.out == Done(LoadCollection(sh.store, u));
    assert |LoadCollection(sh.store, u)| == |Owned(sh.store, u)| by {
      assert LoadCollection(sh.store, u).Keys == Owned(sh.store, u).Keys;
    }
  }

  /** The slot limit is an invariant of book use: a holder within
      `MaxTitles` titles stays within it. */
  lemma BookRespectsLimit(f: Codecs, c: Client, loc: Local, sh: Shared, u: Uuid, action: string, hand: Hand,
                          hands: Hands, now: int, readUp: bool, writeUp: bool)
    requires Wf(f) && CacheCoherent(f, sh) && LocalCoherent(loc, sh.store)
    requires |Owned(sh.store, u)| <= MaxTitles
    ensures |Owned(OnInteract(f, c, loc, sh, u, action, hand, hands, now, readUp, writeUp).shared.store, u)| <= MaxTitles
  {
    var r := OnInteract(f, c, loc, sh, u, action, hand, hands, now, readUp, writeUp);
    if r.verdict == Granted && writeUp {
      var name := InHand(hands, hand).value.bookTitle.value;
      CheckedRoom(f, c, loc, sh, u, name, readUp);
      UpsertGrowsByAtMostOne(sh.store, u, name, now);
    }
  }

  /** Whatever the database's health, a collection the checks report as
      not full holds fewer than `MaxTitles` titles in the tables. */
  lemma CheckedRoom(f: Codecs, c: Client, loc: Local, sh: Shared, u: Uuid, name: string, readUp: bool)
    requires Wf(f) && CacheCoherent(f, sh) && LocalCoherent(loc, sh.store)
    ensures var s := Manager.HasTitle(f, c, loc, sh, u, name, readUp);
      Manager.IsFull(f, c, s.local, s.shared, u, readUp).out == Done(false) ==> |Owned(sh.store, u)| < MaxTitles
  {
    var s := Manager.HasTitle(f, c, loc, sh, u, name, readUp);
    LoadKeepsCoherent(f, c, sh, u, readUp);
    assert s.shared.store == sh.store && CacheCoherent(f, s.shared);
    LoadReadsStore(f, c, s.shared, u, readUp);
    var load := Manager.LoadTitles(f, c, s.local, s.shared, u, readUp);
    if load.out.Done? {
      assert load.out.value == LoadCollection(sh.store, u);
      assert |LoadCollection(sh.store, u)| == |Owned(sh.store, u)| by {
        assert LoadCollection(sh.store, u).Keys == Owned(sh.store, u).Keys;
      }
    }
  }

  /** A grant whose database write fails still uses up the book: the
      listener does not wait for `addTitle` to complete. */
  lemma BookSpentOnFailedGrant(f: Codecs, c: Client, loc: Local, sh: Shared, u: Uuid, action: string, hand: Hand,
                               hands: Hands, now: int)
    requires Contains(action, RightClick) && IsTitleBook(InHand(hands, hand)) && InHand(hands, hand).value.amount >= 1
    requires u in loc.titles && InHand(hands, hand).value.bookTitle.value !in loc.titles[u]
    requires |loc.titles[u]| < MaxTitles
    ensures var name := InHand(hands, hand).value.bookTitle.value;
      var r := OnInteract(f, c, loc, sh, u, action, hand, hands, now, false, false);
      r.verdict == Granted && HeldBooks(r.hands, name) == HeldBooks(hands, name) - 1 && r.shared.store == sh.store
  {
  }
}
