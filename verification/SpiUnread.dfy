/** What becomes of the receive thread when nobody reads: it drops the oldest packets for a
    while and then gives up. */
module SpiUnread {
  import SpiPacketizer
  import opened SpiRing
  import opened SpiSystem

  /** Steps of the receive thread itself. */
  predicate Own(a: Action) {
    a.Choose? || a.Begin? || a.Receive? || a.Publish?
  }

  predicate Fresh(s: Sys) {
    Inv(s) && s.prod.Ready? && Used(s.ring) == 0 && s.stats == NO_STATS
  }

  function AfterAll(s: Sys, acts: seq<Action>): (e: Sys)
    requires WellFormed(s)
    ensures WellFormed(e)
  {
    if acts == [] then s else Step(AfterAll(s, acts[..|acts| - 1]), acts[|acts| - 1])
  }

  /** What is lost and queued once m packets were queued and `more` slots are held, and the
      most that was ever queued. */
  predicate Level(s: Sys, m: int, more: int)
    requires WellFormed(s)
  {
    && s.stats.pktLost == (if m + more > 16383 then m + more - 16383 else 0)
    && Used(s.ring) == (if m + more > 16383 then 16383 - more else m)
    && s.stats.maxUsed == if m > 16383 then 16383 else m
  }

  predicate Unread(s: Sys, m: int) {
    && Inv(s) && m >= 0
    && match s.prod
       case Ready => Level(s, m, 0) && s.stats.pktLost <= 1024
       case Chosen(_) => Level(s, m, 1) && s.stats.pktLost <= 1025
       case Filling(_, _) => Level(s, m, 1) && s.stats.pktLost <= 1024
       case Full(_) => Level(s, m, 1) && s.stats.pktLost <= 1024
       case Partial(_) => false
       case Off => m == 17407
  }

  lemma ChooseUnread(s: Sys, m: int)
    requires Unread(s, m) && s.prod.Ready?
    ensures Unread(ChooseSlot(s), m) && ChooseSlot(s).inserted == s.inserted
  {
    ChooseKeeps(s);
    ChosenIs(s);
    RoomUnread(s, m);
    hide Inv, Used, FreeFrom, ChooseSlot, WithRoom, Window;
  }

  lemma RoomUnread(s: Sys, m: int)
    requires Unread(s, m) && s.prod.Ready?
    ensures var e := WithRoom(s); WellFormed(e) && Level(e, m, 1) && e.stats.pktLost <= 1025 && e.inserted == s.inserted
  {
    RoomIsMade(s);
    CountAndSpace(s.ring);
    if Vacant(s.ring) == 0 {
      UsedAfterRemove(s.ring);
    }
    hide Used, Vacant, Window, Remove;
  }

  lemma PublishUnread(s: Sys, m: int)
    requires Unread(s, m) && s.prod.Full?
    ensures Unread(PublishSlot(s), m + 1) && |PublishSlot(s).inserted| == |s.inserted| + 1
  {
    PublishKeeps(s);
    UsedAfterInsert(s.ring, s.prod.slot);
    hide Inv, Used, Window, Insert;
  }

  lemma StepUnread(s: Sys, a: Action, m: int)
    requires Unread(s, m) && Own(a)
    ensures Unread(Step(s, a), m + |Step(s, a).inserted| - |s.inserted|)
  {
    hide ChooseSlot, PublishSlot, ReceiveWord, Inv, Used;
    match a
    case Choose => if s.prod.Ready? { ChooseUnread(s, m); }
    case Publish => if s.prod.Full? { PublishUnread(s, m); }
    case Begin => BeginUnread(s, m);
    case Receive(w) => if s.prod.Filling? { ReceiveUnread(s, w, m); }
  }

  lemma BeginUnread(s: Sys, m: int)
    requires Unread(s, m)
    ensures Unread(Step(s, Begin), m) && Step(s, Begin).inserted == s.inserted
  {
    StepKeeps(s, Begin);
    hide Inv, Used;
  }

  lemma ReceiveUnread(s: Sys, w: SpiPacketizer.word, m: int)
    requires Unread(s, m) && s.prod.Filling?
    ensures Unread(ReceiveWord(s, w), m) && ReceiveWord(s, w).inserted == s.inserted
  {
    ReceiveKeeps(s, w);
    hide Inv, Used;
  }

  lemma FreshIsUnread(s: Sys)
    requires Fresh(s)
    ensures WellFormed(s) && Unread(s, 0)
  {
    hide Used;
  }

  lemma {:induction false} AllUnread(s: Sys, acts: seq<Action>)
    requires WellFormed(s) && Unread(s, 0) && forall a :: a in acts ==> Own(a)
    ensures var e := AfterAll(s, acts); Unread(e, |e.inserted| - |s.inserted|)
  {
    hide Unread, Step, WellFormed;
    if acts != [] {
      var n := |acts| - 1;
      assert acts[n] in acts && forall a :: a in acts[..n] ==> a in acts;
      AllUnread(s, acts[..n]);
      var e := AfterAll(s, acts[..n]);
      StepUnread(e, acts[n], |e.inserted| - |s.inserted|);
    }
  }

  lemma UnreadMeans(e: Sys, m: int)
    requires Unread(e, m)
    ensures WellFormed(e) && 0 <= m <= 17407 && (e.prod.Off? ==> m == 17407)
    ensures e.prod.Ready? ==> Level(e, m, 0)
  {
    hide Used;
  }

  /** Without a reader the thread never queues more than 17407 packets, 16383 that stay and
      1024 that are dropped, and it ends exactly there: on the loss of one more. */
  lemma UnreadThreadEnds(s: Sys, acts: seq<Action>)
    requires Fresh(s) && forall a :: a in acts ==> Own(a)
    ensures var e := AfterAll(s, acts); var m := |e.inserted| - |s.inserted|;
            && 0 <= m <= 17407 && (e.prod.Off? ==> m == 17407)
            && (e.prod.Ready? ==> Level(e, m, 0))
  {
    hide *;
    FreshIsUnread(s);
    AllUnread(s, acts);
    UnreadMeans(AfterAll(s, acts), |AfterAll(s, acts).inserted| - |s.inserted|);
  }
}
