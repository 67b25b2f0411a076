/** The enable and reset state machine of lib/nvme/nvme_ctrlr.c: the CC.EN and
    CSTS.RDY handshake of sections 3.1.5, 3.1.6 and 7.6.1 of NVM Express 1.2. */
module ControllerObject {
  import opened Common

  datatype State = Init | DisableWait1 | DisableWait0 | EnableWait1 | Ready

  /** How many steps the machine still has to make. */
  function Rank(s: State): nat {
    match s
    case Init => 4
    case DisableWait1 => 3
    case DisableWait0 => 2
    case EnableWait1 => 1
    case Ready => 0
  }

  /** A write to CC: the new value of EN, and EN and RDY when it was made. */
  datatype Write = Write(en: bool, enWas: bool, rdyWas: bool)

  const CLEAR := Write(false, true, true)
  const SET := Write(true, false, false)

  /** What a call reports; NotDisabled is the error for enabling a controller
      whose EN is already 1, Unhandled the panic for an unknown state. */
  datatype Outcome = Ok | NotDisabled | BadArbitration | StartFailed | TimedOut | Unhandled | ResetFailed

  /** The world outside: at each instant, whether RDY catches up with EN, what
      the clock shows, and whether starting the controller succeeds.  The clock
      advances: past the instant horizon(d) it shows more than d. */
  datatype World = World(follows: nat -> bool, clock: nat -> nat, starts: nat -> bool, horizon: nat -> nat)

  ghost predicate Advancing(w: World) {
    && (forall i: nat, j: nat :: i <= j ==> w.clock(i) <= w.clock(j))
    && forall d: nat, i: nat :: i >= w.horizon(d) ==> w.clock(i) > d
  }

  ghost predicate InTime(w: World, ms: nat, from: nat, n: nat) {
    from <= n && w.follows(n) && w.clock(n + 1) <= w.clock(from) + ms
  }

  /** From every instant on, RDY catches up with EN within the time allowed. */
  ghost predicate Prompt(w: World, ms: nat) {
    forall from: nat :: CatchesUp(w, ms, from)
  }

  ghost predicate CatchesUp(w: World, ms: nat, from: nat) {
    exists n: nat :: InTime(w, ms, from, n)
  }

  /** RDY has had no chance to catch up. */
  ghost predicate NotYet(w: World, from: nat, now: nat) {
    forall i: nat :: from <= i < now ==> !w.follows(i)
  }

  /** While RDY has not caught up, a prompt controller has time left. */
  lemma TimeLeft(w: World, ms: nat, from: nat, now: nat)
    requires Advancing(w) && Prompt(w, ms) && from <= now && NotYet(w, from, now)
    ensures w.clock(now) <= w.clock(from) + ms
  {
    assert CatchesUp(w, ms, from);
    var n: nat :| InTime(w, ms, from, n);
    assert w.clock(now) <= w.clock(n + 1);
  }

  /** Registers and driver state agree. */
  predicate Consistent(s: State, en: bool, rdy: bool) {
    match s
    case Init => true
    case DisableWait1 => en
    case DisableWait0 => !en
    case EnableWait1 => en
    case Ready => en && rdy
  }

  /** The CC writes that take a controller from EN = en0 to state s. */
  function WritesTo(s: State, en0: bool): seq<Write> {
    var clear := if en0 then [CLEAR] else [];
    match s
    case Init => []
    case DisableWait1 => []
    case DisableWait0 => clear
    case EnableWait1 => clear + [SET]
    case Ready => clear + [SET]
  }

  /** EN is cleared only while EN and RDY are 1, and set only while both are 0. */
  ghost predicate Handshakes(writes: seq<Write>) {
    forall i :: 0 <= i < |writes| ==> writes[i] == CLEAR || writes[i] == SET
  }

  class Controller {
    const world: World
    const readyMs: nat       // CAP.TO in milliseconds
    const arbitration: bool  // the requested arbitration mechanism is supported
    var now: nat
    var en: bool
    var rdy: bool
    var state: State
    var deadline: Option<nat>
    var failed: bool
    var resetting: bool
    /** CC writes so far; those before, and EN, when the machine was last put in
        the Init state; the instant the current state was entered, and the time
        then. */
    ghost var writes: seq<Write>
    ghost var before: seq<Write>
    ghost var en0: bool
    ghost var at: nat
    ghost var since: nat

    ghost predicate Valid()
      reads this
    {
      && Advancing(world)
      && Consistent(state, en, rdy)
      && (state == Init ==> en == en0)
      && (state == DisableWait1 ==> en0)
      && writes == before + WritesTo(state, en0)
      && Handshakes(before)
      && (deadline.None? <==> state == Init || state == Ready)
      && (deadline.Some? ==> deadline.value == since + readyMs)
      && at <= now && since == world.clock(at)
      && (deadline.Some? ==> rdy == en || NotYet(world, at, now))
    }

    constructor (world: World, readyMs: nat, arbitration: bool, en: bool, rdy: bool)
      requires Advancing(world)
      ensures Valid() && state == Init && !failed && !resetting && writes == []
      ensures this.en == en && this.rdy == rdy && this.readyMs == readyMs && this.arbitration == arbitration
    {
      this.world, this.readyMs, this.arbitration := world, readyMs, arbitration;
      now := 0;
      this.en, this.rdy := en, rdy;
      state, deadline := Init, None;
      failed, resetting := false, false;
      writes, before, en0, at, since := [], [], en, 0, world.clock(0);
    }

    /** Time passes and RDY may follow EN: the only way RDY changes. */
    method Tick()
      modifies this`now, this`rdy
      ensures now == old(now) + 1 && rdy == if world.follows(old(now)) then en else old(rdy)
    {
      if world.follows(now) {
        rdy := en;
      }
      now := now + 1;
    }

    method Enabled() returns (b: bool)
      modifies this`now, this`rdy
      ensures b == en && now == old(now) + 1 && rdy == if world.follows(old(now)) then en else old(rdy)
    {
      Tick();
      b := en;
    }

    method IsReady() returns (b: bool)
      modifies this`now, this`rdy
      ensures b == rdy && now == old(now) + 1 && rdy == if world.follows(old(now)) then en else old(rdy)
    {
      Tick();
      b := rdy;
    }

    /** The look at RDY in a waiting state. */
    method PollReady() returns (b: bool)
      requires Valid() && deadline.Some?
      modifies this`now, this`rdy
      ensures Valid() && b == rdy && now == old(now) + 1
    {
      b := IsReady();
    }

    /** nvme_ctrlr_set_state */
    method SetState(s: State, timeout: Option<nat>)
      modifies this`state, this`deadline, this`at, this`since
      ensures state == s && at == now && since == world.clock(now)
      ensures deadline == if timeout.None? then None else Some(since + timeout.value)
    {
      state := s;
      deadline := if timeout.None? then None else Some(world.clock(now) + timeout.value);
      at, since := now, world.clock(now);
    }

    /** nvme_ctrlr_enable */
    method Enable() returns (r: Outcome)
      modifies this`now, this`rdy, this`en, this`writes
      ensures now == old(now) + 1
      ensures r == if old(en) then NotDisabled else if !arbitration then BadArbitration else Ok
      ensures r == Ok ==> en && (!old(rdy) ==> writes == old(writes) + [SET] && !rdy)
      ensures r != Ok ==> en == old(en) && writes == old(writes) && (rdy == old(rdy) || rdy == en)
    {
      var b := Enabled();
      if b {
        return NotDisabled;
      }
      if !arbitration {
        return BadArbitration;
      }
      writes := writes + [Write(true, en, rdy)];
      en := true;
      r := Ok;
    }

    /** nvme_ctrlr_disable */
    method Disable()
      modifies this`en, this`writes
      ensures !en && writes == old(writes) + [Write(false, old(en), rdy)]
    {
      writes := writes + [Write(false, en, rdy)];
      en := false;
    }

    /** The enable branch shared by two states: EN and RDY are both 0 here. */
    method BeginEnable() returns (r: Outcome)
      requires Valid() && !en && !rdy && (state == Init || state == DisableWait0)
      modifies this`now, this`rdy, this`en, this`writes, this`state, this`deadline, this`at, this`since
      ensures Valid() && now == old(now) + 1
      ensures r == if arbitration then Ok else BadArbitration
      ensures state == if r == Ok then EnableWait1 else old(state)
    {
      r := Enable();
      if r == Ok {
        SetState(EnableWait1, Some(readyMs));
      }
    }

    /** The disable branch shared by two states: EN and RDY are both 1 here. */
    method BeginDisable()
      requires Valid() && en && rdy && (state == Init || state == DisableWait1)
      modifies this`en, this`writes, this`state, this`deadline, this`at, this`since
      ensures Valid() && state == DisableWait0
    {
      Disable();
      SetState(DisableWait0, Some(readyMs));
    }

    /** The Init state. */
    method InitState() returns (r: Outcome)
      requires Valid() && state == Init
      modifies this`now, this`rdy, this`en, this`writes, this`state, this`deadline, this`at, this`since
      ensures Valid() && now > old(now)
      ensures r == Ok || (r == BadArbitration && !arbitration)
      ensures r == Ok ==> Rank(state) < Rank(Init)
      ensures r != Ok ==> state == Init
    {
      var enabled := Enabled();
      var ready := IsReady();
      if enabled {
        if ready {
          BeginDisable();
        } else {
          SetState(DisableWait1, Some(readyMs));
        }
        return Ok;
      }
      if ready {
        SetState(DisableWait0, Some(readyMs));
        return Ok;
      }
      r := BeginEnable();
    }

    /** nvme_ctrlr_fail, as far as the controller itself goes. */
    method Fail()
      modifies this`failed
      ensures failed
    {
      failed := true;
    }

    /** A waiting state whose register has not moved yet. */
    method CheckTimeout() returns (r: Outcome)
      requires Valid() && deadline.Some?
      modifies this`now, this`rdy, this`failed
      ensures Valid() && now == old(now) + 1
      ensures r == Ok || r == TimedOut
      ensures r == Ok ==> failed == old(failed) && old(now) < world.horizon(deadline.value)
      ensures r == TimedOut ==> failed && world.clock(now) > since + readyMs
      ensures Prompt(world, readyMs) && old(rdy) != en ==> r == Ok
    {
      if Prompt(world, readyMs) && rdy != en {
        TimeLeft(world, readyMs, at, now);
      }
      hide Prompt;
      var time := world.clock(now);
      Tick();
      if time > deadline.value {
        Fail();
        return TimedOut;
      }
      r := Ok;
    }

    /** The controller is enabled, ready and started. */
    method BecomeReady()
      requires Valid() && state == EnableWait1 && rdy
      modifies this`state, this`deadline, this`at, this`since
      ensures Valid() && state == State.Ready
    {
      SetState(State.Ready, None);
    }

    /** nvme_ctrlr_init: one call moves the machine on, lets it wait, or fails. */
    method Step() returns (r: Outcome)
      requires Valid()
      modifies this
      ensures Valid() && now >= old(now) && before == old(before) && en0 == old(en0) && resetting == old(resetting)
      ensures r != NotDisabled && r != ResetFailed && (r == Unhandled <==> old(state) == Ready)
      ensures r != Ok ==> state == old(state)
      ensures r == BadArbitration ==> !arbitration
      ensures r == TimedOut ==> failed && world.clock(now) > since + readyMs && !Prompt(world, readyMs)
      ensures r == StartFailed ==> !world.starts(now)
      ensures r == Ok ==> failed == old(failed)
      ensures r == Ok ==>
        || Rank(state) < Rank(old(state))
        || (state == old(state) && deadline == old(deadline) && deadline.Some?
            && old(now) < now && old(now) < world.horizon(deadline.value))
    {
      hide Prompt, NotYet, Advancing, Handshakes, WritesTo, InTime;
      match state
      case Init =>
        r := InitState();
      case DisableWait1 =>
        var ready := PollReady();
        if ready {
          BeginDisable();
          return Ok;
        }
        r := CheckTimeout();
      case DisableWait0 =>
        var ready := PollReady();
        if !ready {
          r := BeginEnable();
          return;
        }
        r := CheckTimeout();
      case EnableWait1 =>
        var ready := PollReady();
        if ready {
          if !world.starts(now) {
            return StartFailed;
          }
          BecomeReady();
          return Ok;
        }
        r := CheckTimeout();
      case Ready =>
        Fail();
        r := Unhandled;
    }

    /** The loop of nvme_ctrlr_attach and nvme_ctrlr_reset: call until ready.  It
        ends because each state is left in the end, or times out. */
    method UntilReady() returns (r: Outcome)
      requires Valid() && state != Ready
      modifies this
      ensures Valid() && before == old(before) && en0 == old(en0) && resetting == old(resetting)
      ensures r == Ok <==> state == Ready
      ensures r == Ok ==> en && rdy && failed == old(failed)
      ensures r in {Ok, BadArbitration, StartFailed, TimedOut}
      ensures r == TimedOut ==> failed && world.clock(now) > since + readyMs
      ensures arbitration && Prompt(world, readyMs) && (forall i: nat :: world.starts(i)) ==> r == Ok
    {
      r := Ok;
      while state != Ready
        invariant Valid() && r == Ok && before == old(before) && en0 == old(en0)
        invariant resetting == old(resetting) && failed == old(failed)
        decreases Rank(state), if deadline.Some? then world.horizon(deadline.value) - now else 0
      {
        r := Step();
        if r != Ok {
          return;
        }
      }
    }

    /** In every state the handshake was respected so far. */
    lemma OnlyHandshakes()
      requires Valid()
      ensures Handshakes(writes)
      ensures forall i :: 0 <= i < |writes| ==> (writes[i].en <==> !writes[i].rdyWas) && writes[i].enWas != writes[i].en
    {
      var more := WritesTo(state, en0);
      assert Handshakes(more);
      forall i | 0 <= i < |writes| ensures writes[i] == CLEAR || writes[i] == SET {
        if i >= |before| {
          assert writes[i] == more[i - |before|];
        }
      }
    }

    /** nvme_ctrlr_reset; `recreated` says whether all queue pairs could be
        created again.  A successful reset has put the controller through one
        full handshake. */
    method Reset(recreated: bool) returns (r: Outcome)
      requires Valid()
      modifies this
      ensures Valid()
      ensures old(resetting) || old(failed) ==>
        r == Ok && state == old(state) && en == old(en) && rdy == old(rdy) && writes == old(writes)
        && failed == old(failed) && resetting == old(resetting)
      ensures !old(resetting) && !old(failed) ==>
        && !resetting
        && (r == Ok <==> !failed)
        && (r == Ok ==> state == Ready && en && rdy)
        && (r == Ok ==>
              writes == old(writes) + (if old(en) then [Write(false, true, true)] else []) + [Write(true, false, false)])
        && (arbitration && Prompt(world, readyMs) && (forall i: nat :: world.starts(i)) ==> (r == Ok <==> recreated))
    {
      if resetting || failed {
        return Ok;
      }
      OnlyHandshakes();
      resetting := true;
      SetState(Init, None);
      before, en0 := writes, en;
      r := UntilReady();
      if r != Ok || !recreated {
        Fail();
      }
      resetting := false;
      r := if failed then ResetFailed else Ok;
    }
  }
}
