/** The pit-command channel: BroadcastBase forwards a message to the sdk
    only while the wrapper reports a connection, and PitCommandControl
    turns each pit-stop request into PitCommand messages. */
module Broadcast {
  import opened Wrappers
  import opened Memory
  import opened WordPacking
  import opened Sdk
  import opened Wrapper

  /** BroadcastMessageTypes.PitCommand. */
  const PitCommand: int := 9

  // PitCommandModeTypes
  const ModeClear: int := 0
  const ModeWindshield: int := 1
  const ModeFuel: int := 2
  const ModeLeftFront: int := 3
  const ModeRightFront: int := 4
  const ModeLeftRear: int := 5
  const ModeRightRear: int := 6
  const ModeClearTires: int := 7
  const ModeFastRepair: int := 8
  const ModeClearWindshield: int := 9
  const ModeClearFastRepair: int := 10
  const ModeClearFuel: int := 11
  const ModeTireCompound: int := 12

  /** A broadcast request: the message type and the two int parameters it
      is handed to BroadcastMessage with. */
  datatype Message = Message(kind: int, var1: int, var2: int)

  /** What BroadcastMessage posts for one request under a registered id. */
  function Encode(msgId: int, m: Message): Posted {
    Posted(msgId, MakeLong(Wrap16(m.kind), Wrap16(m.var1)), m.var2)
  }

  /** The posts a sequence of requests leaves, oldest first: one per
      request when the gate is open and the id registered, none otherwise. */
  function Delivered(connected: bool, msgId: int, ms: seq<Message>): (ps: seq<Posted>)
    ensures |ps| == (if connected && msgId != 0 then |ms| else 0)
  {
    if !connected || msgId == 0 || ms == [] then []
    else [Encode(msgId, ms[0])] + Delivered(connected, msgId, ms[1..])
  }

  /** Every post carries its request's type in the low word and var1 in the
      high word of wParam, each as a short, and var2 unchanged in lParam:
      the request comes back out of the post when its fields fit a short. */
  lemma {:induction false} DeliveredDecodes(msgId: int, ms: seq<Message>, k: int)
    requires msgId != 0 && 0 <= k < |ms|
    ensures var p := Delivered(true, msgId, ms)[k];
            p.msgId == msgId && p.lParam == ms[k].var2 &&
            LoWord(p.wParam) == Wrap16(ms[k].kind) && HiWord(p.wParam) == Wrap16(ms[k].var1) &&
            (IsInt16(ms[k].kind) && IsInt16(ms[k].var1) ==>
               LoWord(p.wParam) == ms[k].kind && HiWord(p.wParam) == ms[k].var1)
  {
    if k == 0 {
      PostedWords(ms[0].kind, ms[0].var1);
    } else {
      DeliveredDecodes(msgId, ms[1..], k - 1);
    }
  }

  /** Sending in two batches posts what sending them together does. */
  lemma {:induction false} DeliveredAppend(connected: bool, msgId: int, a: seq<Message>, b: seq<Message>)
    ensures Delivered(connected, msgId, a + b) == Delivered(connected, msgId, a) + Delivered(connected, msgId, b)
  {
    if a == [] {
      assert a + b == b;
    } else if connected && msgId != 0 {
      assert (a + b)[0] == a[0];
      assert (a + b)[1..] == a[1..] + b;
      DeliveredAppend(connected, msgId, a[1..], b);
      var x := [Encode(msgId, a[0])];
      assert Delivered(connected, msgId, a + b) == x + Delivered(connected, msgId, a[1..] + b);
      ConcatAssociates(x, Delivered(connected, msgId, a[1..]), Delivered(connected, msgId, b));
    }
  }

  /** A log that grew by one batch and then by another holds both. */
  lemma DeliveredThrough(connected: bool, msgId: int, before: seq<Posted>, mid: seq<Posted>, now: seq<Posted>,
                         sent: seq<Message>, next: seq<Message>)
    requires mid == before + Delivered(connected, msgId, sent)
    requires now == mid + Delivered(connected, msgId, next)
    ensures now == before + Delivered(connected, msgId, sent + next)
  {
    DeliveredAppend(connected, msgId, sent, next);
    ConcatAssociates(before, Delivered(connected, msgId, sent), Delivered(connected, msgId, next));
  }

  lemma ConcatAssociates(a: seq<Posted>, b: seq<Posted>, c: seq<Posted>)
    ensures (a + b) + c == a + (b + c)
  {
  }

  /** The three-int overload packs var2 and var3 into lParam as two shorts;
      LoWord and HiWord give them back when they fit a short. */
  lemma PackedWords(var2: int, var3: int)
    ensures LoWord(MakeLong(Wrap16(var2), Wrap16(var3))) == Wrap16(var2)
    ensures HiWord(MakeLong(Wrap16(var2), Wrap16(var3))) == Wrap16(var3)
    ensures IsInt16(var2) && IsInt16(var3) ==>
              LoWord(MakeLong(Wrap16(var2), Wrap16(var3))) == var2 &&
              HiWord(MakeLong(Wrap16(var2), Wrap16(var3))) == var3
  {
    LoWordOfMakeLong(Wrap16(var2), Wrap16(var3));
    HiWordOfMakeLong(Wrap16(var2), Wrap16(var3));
  }

  /** PitCommandControl.Tire: whether to change a tire and its new pressure
      in kPa. */
  datatype Tire = Tire(change: bool, pressure: int)

  /** PitCommandControl.TireChange: the four tires, each of which may be
      null. */
  datatype TireChange = TireChange(leftFront: Option<Tire>, rightFront: Option<Tire>,
                                   leftRear: Option<Tire>, rightRear: Option<Tire>)

  /** `new TireChange()`: four fresh tires, none to be changed, at pressure 0. */
  function NewTireChange(): TireChange {
    var t := Tire(false, 0);
    TireChange(Some(t), Some(t), Some(t), Some(t))
  }

  /** The request ChangeTire(mode, pressure) makes for one tire slot: one
      for a non-null tire marked for change, none otherwise. */
  function TireCommand(mode: int, tire: Option<Tire>): seq<Message> {
    if tire.Some? && tire.value.change then [Message(PitCommand, mode, tire.value.pressure)] else []
  }

  /** The requests ChangeTires makes, in its order LF, RF, LR, RR. */
  function TireCommands(c: TireChange): seq<Message> {
    TireCommand(ModeLeftFront, c.leftFront) + TireCommand(ModeRightFront, c.rightFront) +
    TireCommand(ModeLeftRear, c.leftRear) + TireCommand(ModeRightRear, c.rightRear)
  }

  /** Whether a tire slot asks for a change. */
  predicate Changes(tire: Option<Tire>) {
    tire.Some? && tire.value.change
  }

  /** The request one tire slot makes, when it makes one. */
  lemma TireCommandMembers(mode: int, tire: Option<Tire>)
    ensures |TireCommand(mode, tire)| == (if Changes(tire) then 1 else 0)
    ensures forall m :: m in TireCommand(mode, tire) <==>
              Changes(tire) && m == Message(PitCommand, mode, tire.value.pressure)
  {
  }

  /** ChangeTires asks for a tire exactly when that tire is non-null and
      marked, with PitCommand, the tire's mode and its pressure, and for
      nothing else. */
  lemma TireCommandsMembers(c: TireChange, m: Message)
    ensures m in TireCommands(c) <==>
              (Changes(c.leftFront) && m == Message(PitCommand, ModeLeftFront, c.leftFront.value.pressure)) ||
              (Changes(c.rightFront) && m == Message(PitCommand, ModeRightFront, c.rightFront.value.pressure)) ||
              (Changes(c.leftRear) && m == Message(PitCommand, ModeLeftRear, c.leftRear.value.pressure)) ||
              (Changes(c.rightRear) && m == Message(PitCommand, ModeRightRear, c.rightRear.value.pressure))
  {
    TireCommandMembers(ModeLeftFront, c.leftFront);
    TireCommandMembers(ModeRightFront, c.rightFront);
    TireCommandMembers(ModeLeftRear, c.leftRear);
    TireCommandMembers(ModeRightRear, c.rightRear);
  }

  /** ChangeTires makes one request per marked tire, in increasing mode
      order LF 3, RF 4, LR 5, RR 6, so no tire is asked for twice. */
  lemma TireCommandsOrdered(c: TireChange)
    ensures |TireCommands(c)| ==
              (if Changes(c.leftFront) then 1 else 0) + (if Changes(c.rightFront) then 1 else 0) +
              (if Changes(c.leftRear) then 1 else 0) + (if Changes(c.rightRear) then 1 else 0)
    ensures forall j, k :: 0 <= j < k < |TireCommands(c)| ==> TireCommands(c)[j].var1 < TireCommands(c)[k].var1
  {
    var ms := TireCommands(c);
    TireCommandMembers(ModeLeftFront, c.leftFront);
    TireCommandMembers(ModeRightFront, c.rightFront);
    TireCommandMembers(ModeLeftRear, c.leftRear);
    TireCommandMembers(ModeRightRear, c.rightRear);
    var a := TireCommand(ModeLeftFront, c.leftFront);
    var b := TireCommand(ModeRightFront, c.rightFront);
    var d := TireCommand(ModeLeftRear, c.leftRear);
    var e := TireCommand(ModeRightRear, c.rightRear);
    assert ms == a + b + d + e;
    forall j, k | 0 <= j < k < |ms|
      ensures ms[j].var1 < ms[k].var1
    {
      assert ms[j] in a + b + d + e && ms[k] in a + b + d + e;
      assert j < |a| ==> ms[j].var1 == ModeLeftFront;
    }
  }

  /** A freshly made TireChange asks for nothing. */
  lemma NewTireChangeSendsNothing()
    ensures TireCommands(NewTireChange()) == []
    ensures NewTireChange().leftFront.Some? && NewTireChange().rightFront.Some? &&
            NewTireChange().leftRear.Some? && NewTireChange().rightRear.Some?
  {
  }

  /** BroadcastBase: the wrapper whose connection gates every message. */
  class BroadcastBase {
    const wrapper: SdkWrapper

    constructor (wrapper: SdkWrapper)
      ensures this.wrapper == wrapper
    {
      this.wrapper := wrapper;
    }

    /** What a batch of requests posts through this wrapper's sdk now. */
    function Outbox(ms: seq<Message>): seq<Posted>
      reads this, wrapper
    {
      Delivered(wrapper.IsConnected(), wrapper.sdk.broadcastMessageId, ms)
    }

    /** Broadcast(type, var1, var2): nothing while the wrapper is not
        connected; otherwise BroadcastMessage(type, var1, var2). */
    method Broadcast(kind: int, var1: int, var2: int)
      modifies wrapper.sdk`posted
      ensures wrapper.sdk.posted == old(wrapper.sdk.posted) + Outbox([Message(kind, var1, var2)])
    {
      if !wrapper.IsConnected() {
        return;
      }
      wrapper.sdk.BroadcastMessage(kind, var1, var2);
    }

    /** Broadcast(type, var1, var2, var3): nothing while the wrapper is not
        connected; otherwise var2 and var3 go out packed as two shorts. */
    method BroadcastPacked(kind: int, var1: int, var2: int, var3: int)
      modifies wrapper.sdk`posted
      ensures wrapper.sdk.posted ==
                old(wrapper.sdk.posted) + Outbox([Message(kind, var1, MakeLong(Wrap16(var2), Wrap16(var3)))])
    {
      if !wrapper.IsConnected() {
        return;
      }
      wrapper.sdk.BroadcastMessagePacked(kind, var1, var2, var3);
    }
  }

  /** PitCommandControl: each request is one PitCommand broadcast with its
      mode, except ChangeTires, which makes one per marked tire. */
  class PitCommandControl {
    const base: BroadcastBase

    constructor (wrapper: SdkWrapper)
      ensures fresh(base) && base.wrapper == wrapper
    {
      base := new BroadcastBase(wrapper);
    }

    /** The sent-message log. */
    function Sent(): seq<Posted>
      reads this, base, base.wrapper, base.wrapper.sdk
    {
      base.wrapper.sdk.posted
    }

    /** AddFuel(liters): Fuel with the amount. */
    method AddFuel(amountLiters: int)
      modifies base.wrapper.sdk`posted
      ensures Sent() == old(Sent()) + base.Outbox([Message(PitCommand, ModeFuel, amountLiters)])
    {
      base.Broadcast(PitCommand, ModeFuel, amountLiters);
    }

    /** ChangeTire(type, pressure). */
    method ChangeTire(mode: int, pressure: int)
      modifies base.wrapper.sdk`posted
      ensures Sent() == old(Sent()) + base.Outbox([Message(PitCommand, mode, pressure)])
    {
      base.Broadcast(PitCommand, mode, pressure);
    }

    /** ChangeTireCompound(index): TC with the index. */
    method ChangeTireCompound(tireCompoundIndex: int)
      modifies base.wrapper.sdk`posted
      ensures Sent() == old(Sent()) + base.Outbox([Message(PitCommand, ModeTireCompound, tireCompoundIndex)])
    {
      base.Broadcast(PitCommand, ModeTireCompound, tireCompoundIndex);
    }

    /** ChangeTires(change): ChangeTire for each non-null tire marked for
        change, LF, RF, LR, RR in that order. */
    method ChangeTires(change: TireChange)
      modifies base.wrapper.sdk`posted
      ensures Sent() == old(Sent()) + base.Outbox(TireCommands(change))
    {
      ghost var connected, id := base.wrapper.IsConnected(), base.wrapper.sdk.broadcastMessageId;
      ghost var before := Sent();
      ChangeIfMarked(ModeLeftFront, change.leftFront);
      ghost var sent := TireCommand(ModeLeftFront, change.leftFront);
      assert Sent() == before + Delivered(connected, id, sent);

      ghost var mid, next := Sent(), TireCommand(ModeRightFront, change.rightFront);
      ChangeIfMarked(ModeRightFront, change.rightFront);
      assert Sent() == mid + Delivered(connected, id, next);
      DeliveredThrough(connected, id, before, mid, Sent(), sent, next);
      sent := sent + next;

      mid, next := Sent(), TireCommand(ModeLeftRear, change.leftRear);
      ChangeIfMarked(ModeLeftRear, change.leftRear);
      assert Sent() == mid + Delivered(connected, id, next);
      DeliveredThrough(connected, id, before, mid, Sent(), sent, next);
      sent := sent + next;

      mid, next := Sent(), TireCommand(ModeRightRear, change.rightRear);
      ChangeIfMarked(ModeRightRear, change.rightRear);
      assert Sent() == mid + Delivered(connected, id, next);
      DeliveredThrough(connected, id, before, mid, Sent(), sent, next);
      sent := sent + next;
      assert sent == TireCommands(change);
    }

    /** One tire slot of ChangeTires: ChangeTire when it is marked for change. */
    method ChangeIfMarked(mode: int, tire: Option<Tire>)
      modifies base.wrapper.sdk`posted
      ensures Sent() == old(Sent()) + base.Outbox(TireCommand(mode, tire))
    {
      if tire.Some? && tire.value.change {
        ChangeTire(mode, tire.value.pressure);
      } else {
        assert Sent() + [] == Sent();
      }
    }

    /** Tearoff(): WS. */
    method Tearoff()
      modifies base.wrapper.sdk`posted
      ensures Sent() == old(Sent()) + base.Outbox([Message(PitCommand, ModeWindshield, 0)])
    {
      base.Broadcast(PitCommand, ModeWindshield, 0);
    }

    /** FastRepair(): FastRepair. */
    method FastRepair()
      modifies base.wrapper.sdk`posted
      ensures Sent() == old(Sent()) + base.Outbox([Message(PitCommand, ModeFastRepair, 0)])
    {
      base.Broadcast(PitCommand, ModeFastRepair, 0);
    }

    /** Clear(): Clear. */
    method Clear()
      modifies base.wrapper.sdk`posted
      ensures Sent() == old(Sent()) + base.Outbox([Message(PitCommand, ModeClear, 0)])
    {
      base.Broadcast(PitCommand, ModeClear, 0);
    }

    /** ClearTires(): ClearTires. */
    method ClearTires()
      modifies base.wrapper.sdk`posted
      ensures Sent() == old(Sent()) + base.Outbox([Message(PitCommand, ModeClearTires, 0)])
    {
      base.Broadcast(PitCommand, ModeClearTires, 0);
    }

    /** ClearFuel(): ClearFuel. */
    method ClearFuel()
      modifies base.wrapper.sdk`posted
      ensures Sent() == old(Sent()) + base.Outbox([Message(PitCommand, ModeClearFuel, 0)])
    {
      base.Broadcast(PitCommand, ModeClearFuel, 0);
    }

    /** ClearFastRepair(): ClearFR. */
    method ClearFastRepair()
      modifies base.wrapper.sdk`posted
      ensures Sent() == old(Sent()) + base.Outbox([Message(PitCommand, ModeClearFastRepair, 0)])
    {
      base.Broadcast(PitCommand, ModeClearFastRepair, 0);
    }

    /** ClearWindshield(): ClearWS. */
    method ClearWindshield()
      modifies base.wrapper.sdk`posted
      ensures Sent() == old(Sent()) + base.Outbox([Message(PitCommand, ModeClearWindshield, 0)])
    {
      base.Broadcast(PitCommand, ModeClearWindshield, 0);
    }
  }
}
