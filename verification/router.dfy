/** The key router of im.c: for each key event it decides whether the key drives the
    engine, toggles the input method, or goes back out through the virtual keyboard.
    xkb's answers (the keysym, the modifier test, the serialized modifiers, whether a key
    repeats) and the answer of im_toggle come in as inputs. */
module Router {
  import opened Options
  import opened CStrings
  import K = Keysyms
  import Rime
  import RimeEngine
  import Panel
  import RepeatTimer

  type U32 = RepeatTimer.U32

  /** The engine commands the router issues. */
  datatype EngineOp =
    | Choose(index: nat)
    | Cursor(right: bool)
    | Page(next: bool)
    | Delete(forward: bool)
    | Key(sym: K.Keysym, mods: nat)
    | Reset

  /** The commands that come from the fixed key table rather than from im_engine_key. */
  predicate IsTableOp(op: EngineOp)
  {
    op.Choose? || op.Cursor? || op.Page? || op.Delete?
  }

  /** One key event: the hardware keycode, the keysym xkb resolved it to, press or release. */
  datatype KeyEvent = KeyEvent(keycode: nat, sym: K.Keysym, pressed: bool)

  /** What the outside answers for one event: whether any modifier is active, the
      serialized modifier mask, and whether im_toggle fires. */
  datatype KeyEnv = KeyEnv(hasModifiers: bool, mods: nat, toggle: bool)

  /** What the router emits, in order. */
  datatype Action =
    | EngineCall(op: EngineOp)
    | SetPreedit(text: string)
    | CommitString(text: string)
    | Commit(serial: U32)
    | VirtualKey(keycode: nat, pressed: bool)
    | VirtualKeymap(keymap: string)

  /** The session: the keymap string kept for de-duplication, whether an xkb state exists,
      the input-method mode, the commit serial, key repeat and the engine. */
  datatype State<S> = State(
    keymap: CStr,
    xkbReady: bool,
    activated: bool,
    serial: U32,
    repeat: RepeatTimer.Repeat,
    engine: RimeEngine.Engine<S>)

  /** The session as im_setup leaves it: no keymap, serial 1. */
  function Initial<S>(engine: RimeEngine.Engine<S>, defaultActivation: bool): (s: State<S>)
    ensures !s.xkbReady && s.keymap.Null? && s.serial == 1 && s.activated == defaultActivation
  {
    State(Null, false, defaultActivation, 1, RepeatTimer.Initial, engine)
  }

  /** `im_serial++` on a uint32_t. */
  function NextSerial(n: U32): (r: U32)
    ensures r == (n + 1) % 0x1_0000_0000
    ensures n < 0xffff_ffff ==> r == n + 1
  {
    if n == 0xffff_ffff then 0 else n + 1
  }

  const NextPageKeys: set<K.Keysym> := {K.UP, K.KpUp, K.PageUp, K.KpPageUp, K.Equal, K.KpAdd}
  const PrevPageKeys: set<K.Keysym> := {K.DOWN, K.KpDown, K.PageDown, K.KpPageDown, K.Minus, K.KpSubtract}

  /** Every keysym the table names. */
  predicate InTable(sym: K.Keysym)
  {
    || K.Key1 <= sym <= K.Key9
    || K.Kp1 <= sym <= K.Kp9
    || sym == K.Space
    || sym in {K.Right, K.KpRight, K.Left, K.KpLeft, K.Delete, K.BackSpace}
    || sym in NextPageKeys
    || sym in PrevPageKeys
  }

  /** The fixed command table of im_handle_key. */
  function CommandFor(sym: K.Keysym): (r: Option<EngineOp>)
    ensures r.Some? <==> InTable(sym)
    ensures r.Some? ==> IsTableOp(r.value)
    ensures r.Some? && r.value.Choose? ==> r.value.index <= 8
    ensures K.Key1 <= sym <= K.Key9 ==> r == Some(Choose(sym - K.Key1))
    ensures K.Kp1 <= sym <= K.Kp9 ==> r == Some(Choose(sym - K.Kp1))
    ensures sym == K.Space ==> r == Some(Choose(0))
    ensures sym in {K.Right, K.KpRight} ==> r == Some(Cursor(true))
    ensures sym in {K.Left, K.KpLeft} ==> r == Some(Cursor(false))
    ensures sym in NextPageKeys ==> r == Some(Page(true))
    ensures sym in PrevPageKeys ==> r == Some(Page(false))
    ensures sym == K.Delete ==> r == Some(Delete(true))
    ensures sym == K.BackSpace ==> r == Some(Delete(false))
  {
    if K.Kp1 <= sym <= K.Kp9 then Some(Choose(sym - K.Kp1))
    else if K.Key1 <= sym <= K.Key9 then Some(Choose(sym - K.Key1))
    else if sym == K.Space then Some(Choose(0))
    else if sym == K.Right || sym == K.KpRight then Some(Cursor(true))
    else if sym == K.Left || sym == K.KpLeft then Some(Cursor(false))
    else if sym in NextPageKeys then Some(Page(true))
    else if sym in PrevPageKeys then Some(Page(false))
    else if sym == K.Delete then Some(Delete(true))
    else if sym == K.BackSpace then Some(Delete(false))
    else None
  }

  /** As written, the switch labels XKB_KEY_UP and XKB_KEY_DOWN page on the keysyms 0
      (NoSymbol) and 1, while the Up and Down arrows are not in the table at all. */
  lemma ArrowsDoNotPage()
    ensures CommandFor(K.Up) == None && CommandFor(K.Down) == None
    ensures CommandFor(K.NoSymbol) == Some(Page(true)) && CommandFor(1) == Some(Page(false))
  {
  }

  /** Corrected: the table with the Up and Down arrows in the places of XKB_KEY_UP and
      XKB_KEY_DOWN; every other keysym maps as before. */
  function IntendedCommandFor(sym: K.Keysym): (r: Option<EngineOp>)
    ensures sym == K.Up ==> r == Some(Page(true))
    ensures sym == K.Down ==> r == Some(Page(false))
    ensures sym == K.UP || sym == K.DOWN ==> r == None
    ensures sym !in {K.UP, K.DOWN, K.Up, K.Down} ==> r == CommandFor(sym)
  {
    if sym == K.UP || sym == K.DOWN then None
    else if sym == K.Up then Some(Page(true))
    else if sym == K.Down then Some(Page(false))
    else CommandFor(sym)
  }

  /** With the corrected table, exactly the up-like keys page forward and exactly the
      down-like keys page back. */
  lemma IntendedPaging(sym: K.Keysym)
    ensures IntendedCommandFor(sym) == Some(Page(true)) <==>
      sym in {K.Up, K.KpUp, K.PageUp, K.KpPageUp, K.Equal, K.KpAdd}
    ensures IntendedCommandFor(sym) == Some(Page(false)) <==>
      sym in {K.Down, K.KpDown, K.PageDown, K.KpPageDown, K.Minus, K.KpSubtract}
  {
  }

  /** Runs one engine command; only im_engine_key has an answer the router uses. Each
      command makes its own library call, then one refresh; a NULL engine, or a choice
      past the page, makes none. */
  function Perform<S>(lib: Rime.Lib<S>, e: RimeEngine.Engine<S>, op: EngineOp): (r: (RimeEngine.Engine<S>, bool))
    ensures !op.Key? ==> !r.1
    ensures op.Key? ==> r == RimeEngine.Key(lib, e, op.sym, op.mods)
    ensures e.NullEngine? ==> r.0 == e
    ensures op.Choose? && op.index >= RimeEngine.CandidateLen(e) ==> r.0 == e
    ensures e.Engine? && !(op.Choose? && op.index >= RimeEngine.CandidateLen(e)) ==>
      r.0.Engine? && Rime.Fresh(lib, r.0.client)
    ensures e.Engine? && op.Choose? && op.index < RimeEngine.CandidateLen(e) ==>
      RimeEngine.Calls(r.0) == e.client.calls + [Rime.SelectCandidateOnCurrentPage(op.index)] + Rime.SnapshotCalls
    ensures e.Engine? && op.Cursor? ==>
      RimeEngine.Calls(r.0) == e.client.calls + [Rime.ProcessKey(if op.right then K.Right else K.Left, 0)] + Rime.SnapshotCalls
    ensures e.Engine? && op.Page? ==>
      RimeEngine.Calls(r.0) == e.client.calls + [Rime.ProcessKey(if op.next then K.PageDown else K.PageUp, 0)] + Rime.SnapshotCalls
    ensures e.Engine? && op.Delete? ==>
      RimeEngine.Calls(r.0) == e.client.calls + [Rime.ProcessKey(if op.forward then K.Delete else K.BackSpace, 0)] + Rime.SnapshotCalls
    ensures e.Engine? && op.Key? ==>
      RimeEngine.Calls(r.0) == e.client.calls + [Rime.ProcessKey(op.sym, op.mods)] + Rime.SnapshotCalls
    ensures e.Engine? && op.Reset? ==>
      RimeEngine.Calls(r.0) == e.client.calls + [Rime.ClearComposition, Rime.CommitComposition] + Rime.SnapshotCalls
  {
    match op
    case Choose(i) => (RimeEngine.CandidateChoose(lib, e, i), false)
    case Cursor(right) => (RimeEngine.Cursor(lib, e, right), false)
    case Page(next) => (RimeEngine.Page(lib, e, next), false)
    case Delete(forward) => (RimeEngine.Delete(lib, e, forward), false)
    case Key(sym, mods) => RimeEngine.Key(lib, e, sym, mods)
    case Reset => (RimeEngine.Reset(lib, e), false)
  }

  /** Whether the table applies: a press, in active mode, no modifier, a non-empty preedit. */
  predicate TableApplies<S>(s: State<S>, ev: KeyEvent, env: KeyEnv)
  {
    ev.pressed && s.activated && !env.hasModifiers && RimeEngine.PreeditGet(s.engine).s != ""
  }

  /** The engine's turn: a table command (always handled), else im_engine_key (handled as
      the engine answers). Releases and inactive mode skip it. Gives the engine after,
      whether the key was handled, and the command issued. */
  function Offer<S>(lib: Rime.Lib<S>, s: State<S>, ev: KeyEvent, env: KeyEnv): (r: (RimeEngine.Engine<S>, bool, seq<Action>))
    ensures forall a :: a in r.2 ==> a.EngineCall?
  {
    if !(ev.pressed && s.activated) then (s.engine, false, [])
    else if TableApplies(s, ev, env) && CommandFor(ev.sym).Some? then
      var op := CommandFor(ev.sym).value;
      (Perform(lib, s.engine, op).0, true, [EngineCall(op)])
    else
      var (e, handled) := RimeEngine.Key(lib, s.engine, ev.sym, env.mods);
      (e, handled, [EngineCall(Key(ev.sym, env.mods))])
  }

  /** The handled epilogue: the panel, the commit text when there is one, and an input
      method commit carrying the serial. */
  function Finish<S>(e: RimeEngine.Engine<S>, serial: U32): (r: seq<Action>)
    ensures |r| >= 2 && r[0] == SetPreedit(Panel.PanelFor(e)) && r[|r| - 1] == Commit(serial)
    ensures |r| == if RimeEngine.CommitText(e).s == "" then 2 else 3
    ensures CommitString(RimeEngine.CommitText(e).s) in r <==> RimeEngine.CommitText(e).s != ""
    ensures forall a :: a in r && a.CommitString? ==> a.text == RimeEngine.CommitText(e).s && a.text != ""
    ensures forall a :: a in r && a.Commit? ==> a == Commit(serial)
    ensures forall a :: a in r ==> !a.VirtualKey? && !a.EngineCall?
  {
    var commit := RimeEngine.CommitText(e).s;
    [SetPreedit(Panel.PanelFor(e))] + (if commit == "" then [] else [CommitString(commit)]) + [Commit(serial)]
  }

  /** Engine commands followed by the handled epilogue: the list ends in the commit, holds
      no virtual-keyboard key, and holds the commit text exactly when it is non-empty. */
  lemma Epilogue<S>(pre: seq<Action>, e: RimeEngine.Engine<S>, serial: U32)
    requires forall a :: a in pre ==> a.EngineCall?
    ensures var acts := pre + Finish(e, serial);
      && acts[|acts| - 1] == Commit(serial)
      && (forall a :: a in acts ==> !a.VirtualKey?)
      && (forall a :: a in acts && a.CommitString? ==>
            a.text == RimeEngine.CommitText(e).s && a.text != "")
      && (RimeEngine.CommitText(e).s != "" ==> CommitString(RimeEngine.CommitText(e).s) in acts)
  {
  }

  /** im_handle_key. */
  function HandleKey<S>(lib: Rime.Lib<S>, s: State<S>, ev: KeyEvent, env: KeyEnv): (r: (State<S>, seq<Action>))
    ensures !s.xkbReady ==> r == (s, [])
    ensures r.0.xkbReady == s.xkbReady && r.0.keymap == s.keymap && r.0.repeat == s.repeat
    ensures r.0.serial == s.serial || r.0.serial == NextSerial(s.serial)
    ensures Commit(s.serial) in r.1 <==> r.0.serial == NextSerial(s.serial)
    ensures r.0.serial == NextSerial(s.serial) ==> r.1[|r.1| - 1] == Commit(s.serial)
    ensures VirtualKey(ev.keycode, ev.pressed) in r.1 ==> r.0.serial == s.serial && r.0.activated == s.activated
    ensures forall a :: a in r.1 && a.CommitString? ==>
      r.0.serial == NextSerial(s.serial) && a.text == RimeEngine.CommitText(r.0.engine).s && a.text != ""
    ensures r.0.serial == NextSerial(s.serial) && RimeEngine.CommitText(r.0.engine).s != "" ==>
      CommitString(RimeEngine.CommitText(r.0.engine).s) in r.1
  {
    if !s.xkbReady then (s, [])
    else
      var (e1, handled, issued) := Offer(lib, s, ev, env);
      if handled then
        Epilogue(issued, e1, s.serial);
        (s.(engine := e1, serial := NextSerial(s.serial)), issued + Finish(e1, s.serial))
      else if env.toggle then
        var e2 := RimeEngine.Reset(lib, e1);
        Epilogue(issued + [EngineCall(Reset)], e2, s.serial);
        (s.(activated := !s.activated, engine := e2, serial := NextSerial(s.serial)),
         issued + [EngineCall(Reset)] + Finish(e2, s.serial))
      else
        (s.(engine := e1), issued + [VirtualKey(ev.keycode, ev.pressed)])
  }

  predicate IsOutcome(a: Action)
  {
    a.Commit? || a.VirtualKey?
  }

  /** How many outcomes (input-method commits or virtual-keyboard keys) a list holds. */
  function OutcomeCount(acts: seq<Action>): nat
    decreases |acts|
  {
    if |acts| == 0 then 0
    else OutcomeCount(acts[..|acts| - 1]) + (if IsOutcome(acts[|acts| - 1]) then 1 else 0)
  }

  lemma {:induction false} OutcomeCountAppend(a: seq<Action>, b: seq<Action>)
    ensures OutcomeCount(a + b) == OutcomeCount(a) + OutcomeCount(b)
    decreases |b|
  {
    if |b| == 0 {
      assert a + b == a;
    } else {
      assert (a + b)[..|a + b| - 1] == a + b[..|b| - 1];
      OutcomeCountAppend(a, b[..|b| - 1]);
    }
  }

  lemma OutcomeCountSingle(x: Action)
    ensures OutcomeCount([x]) == if IsOutcome(x) then 1 else 0
  {
    assert [x][..0] == [];
  }

  lemma FinishOneOutcome<S>(e: RimeEngine.Engine<S>, serial: U32)
    ensures OutcomeCount(Finish(e, serial)) == 1
  {
    var commit := RimeEngine.CommitText(e).s;
    var mid: seq<Action> := if commit == "" then [] else [CommitString(commit)];
    OutcomeCountAppend([SetPreedit(Panel.PanelFor(e))] + mid, [Commit(serial)]);
    OutcomeCountAppend([SetPreedit(Panel.PanelFor(e))], mid);
    OutcomeCountSingle(SetPreedit(Panel.PanelFor(e)));
    OutcomeCountSingle(Commit(serial));
    if commit != "" {
      OutcomeCountSingle(CommitString(commit));
    }
  }

  /** With a keymap, every routed event has exactly one outcome: one input-method commit
      or one virtual-keyboard key, never both, never neither. */
  lemma OneOutcome<S>(lib: Rime.Lib<S>, s: State<S>, ev: KeyEvent, env: KeyEnv)
    requires s.xkbReady
    ensures OutcomeCount(HandleKey(lib, s, ev, env).1) == 1
  {
    var (e1, handled, issued) := Offer(lib, s, ev, env);
    assert OutcomeCount(issued) == 0 by {
      if |issued| == 1 {
        OutcomeCountSingle(issued[0]);
        assert issued == [issued[0]];
      }
    }
    if handled {
      FinishOneOutcome(e1, s.serial);
      OutcomeCountAppend(issued, Finish(e1, s.serial));
    } else if env.toggle {
      var e2 := RimeEngine.Reset(lib, e1);
      FinishOneOutcome(e2, s.serial);
      OutcomeCountSingle(EngineCall(Reset));
      OutcomeCountAppend(issued, [EngineCall(Reset)]);
      OutcomeCountAppend(issued + [EngineCall(Reset)], Finish(e2, s.serial));
    } else {
      OutcomeCountSingle(VirtualKey(ev.keycode, ev.pressed));
      OutcomeCountAppend(issued, [VirtualKey(ev.keycode, ev.pressed)]);
    }
  }

  /** A release, or any key while inactive, never reaches the table or the engine: either
      im_toggle fires (mode flips, the engine is only reset) or the same keycode goes out
      with the same press state and nothing else changes. */
  lemma NotActiveOrRelease<S>(lib: Rime.Lib<S>, s: State<S>, ev: KeyEvent, env: KeyEnv)
    requires s.xkbReady && (!s.activated || !ev.pressed)
    ensures !env.toggle ==> HandleKey(lib, s, ev, env) == (s, [VirtualKey(ev.keycode, ev.pressed)])
    ensures env.toggle ==>
      var r := HandleKey(lib, s, ev, env);
      var e := RimeEngine.Reset(lib, s.engine);
      r.0 == s.(activated := !s.activated, engine := e, serial := NextSerial(s.serial)) &&
      r.1 == [EngineCall(Reset)] + Finish(e, s.serial)
    ensures env.toggle ==>
      HandleKey(lib, s, ev, env).0 == HandleReset(lib, s).(activated := !s.activated, serial := NextSerial(s.serial))
  {
    var (e1, handled, issued) := Offer(lib, s, ev, env);
    assert issued == [] && e1 == s.engine && !handled;
    assert [] + [VirtualKey(ev.keycode, ev.pressed)] == [VirtualKey(ev.keycode, ev.pressed)];
    assert [] + [EngineCall(Reset)] == [EngineCall(Reset)];
  }

  /** The table only ever runs a command when the key is pressed, the mode is active, no
      modifier is held, the preedit is non-empty and the keysym is in the table; and then
      the key is consumed whatever the engine makes of the command. */
  lemma TableGate<S>(lib: Rime.Lib<S>, s: State<S>, ev: KeyEvent, env: KeyEnv)
    requires s.xkbReady
    ensures var r := HandleKey(lib, s, ev, env);
      |r.1| > 0 && r.1[0].EngineCall? && IsTableOp(r.1[0].op) <==>
      TableApplies(s, ev, env) && InTable(ev.sym)
    ensures TableApplies(s, ev, env) && InTable(ev.sym) ==>
      var r := HandleKey(lib, s, ev, env);
      r.1 == [EngineCall(CommandFor(ev.sym).value)] + Finish(r.0.engine, s.serial) &&
      r.0.serial == NextSerial(s.serial) && r.0.activated == s.activated
    ensures TableApplies(s, ev, env) && InTable(ev.sym) ==>
      HandleKey(lib, s, ev, env).0.engine == Perform(lib, s.engine, CommandFor(ev.sym).value).0
  {
  }

  /** What each table key asks of the library, seen in the engine's call log: the cursor,
      page and delete keys send their keysym with modifiers 0, the digit keys and Space
      select on the current page when the page is long enough and do nothing otherwise,
      and every call is followed by one refresh. A NULL engine is left alone. */
  lemma TableLibraryCalls<S>(lib: Rime.Lib<S>, s: State<S>, ev: KeyEvent, env: KeyEnv)
    requires s.xkbReady && TableApplies(s, ev, env) && InTable(ev.sym)
    ensures s.engine.NullEngine? ==> HandleKey(lib, s, ev, env).0.engine == s.engine
    ensures var after := RimeEngine.Calls(HandleKey(lib, s, ev, env).0.engine);
      var before := RimeEngine.Calls(s.engine);
      var sent := (c: Rime.Call) => before + [c] + Rime.SnapshotCalls;
      s.engine.Engine? ==>
        && (ev.sym in {K.Right, K.KpRight} ==> after == sent(Rime.ProcessKey(K.Right, 0)))
        && (ev.sym in {K.Left, K.KpLeft} ==> after == sent(Rime.ProcessKey(K.Left, 0)))
        && (ev.sym in NextPageKeys ==> after == sent(Rime.ProcessKey(K.PageDown, 0)))
        && (ev.sym in PrevPageKeys ==> after == sent(Rime.ProcessKey(K.PageUp, 0)))
        && (ev.sym == K.Delete ==> after == sent(Rime.ProcessKey(K.Delete, 0)))
        && (ev.sym == K.BackSpace ==> after == sent(Rime.ProcessKey(K.BackSpace, 0)))
    ensures var e := HandleKey(lib, s, ev, env).0.engine;
      var n := RimeEngine.CandidateLen(s.engine);
      && (K.Key1 <= ev.sym <= K.Key9 ==>
            if ev.sym - K.Key1 < n
            then RimeEngine.Calls(e) == RimeEngine.Calls(s.engine) + [Rime.SelectCandidateOnCurrentPage(ev.sym - K.Key1)] + Rime.SnapshotCalls
            else e == s.engine)
      && (K.Kp1 <= ev.sym <= K.Kp9 ==>
            if ev.sym - K.Kp1 < n
            then RimeEngine.Calls(e) == RimeEngine.Calls(s.engine) + [Rime.SelectCandidateOnCurrentPage(ev.sym - K.Kp1)] + Rime.SnapshotCalls
            else e == s.engine)
      && (ev.sym == K.Space ==>
            if 0 < n
            then RimeEngine.Calls(e) == RimeEngine.Calls(s.engine) + [Rime.SelectCandidateOnCurrentPage(0)] + Rime.SnapshotCalls
            else e == s.engine)
  {
    TableGate(lib, s, ev, env);
  }

  /** A press in active mode that the table does not take is offered to im_engine_key with
      the serialized modifiers; it goes out through the virtual keyboard exactly when the
      engine leaves it unhandled and im_toggle does not fire. */
  lemma EngineOffer<S>(lib: Rime.Lib<S>, s: State<S>, ev: KeyEvent, env: KeyEnv)
    requires s.xkbReady && ev.pressed && s.activated && !(TableApplies(s, ev, env) && InTable(ev.sym))
    ensures var r := HandleKey(lib, s, ev, env);
      r.1[0] == EngineCall(Key(ev.sym, env.mods)) &&
      (VirtualKey(ev.keycode, true) in r.1 <==>
        !RimeEngine.Key(lib, s.engine, ev.sym, env.mods).1 && !env.toggle)
    ensures var r := HandleKey(lib, s, ev, env);
      var (e, handled) := RimeEngine.Key(lib, s.engine, ev.sym, env.mods);
      && (handled ==>
            r.0 == s.(engine := e, serial := NextSerial(s.serial)) &&
            r.1 == [EngineCall(Key(ev.sym, env.mods))] + Finish(e, s.serial))
      && (!handled && env.toggle ==>
            r.0 == s.(activated := !s.activated, engine := RimeEngine.Reset(lib, e), serial := NextSerial(s.serial)) &&
            r.1 == [EngineCall(Key(ev.sym, env.mods)), EngineCall(Reset)] + Finish(RimeEngine.Reset(lib, e), s.serial))
      && (!handled && !env.toggle ==>
            r.0 == s.(engine := e) && r.1 == [EngineCall(Key(ev.sym, env.mods)), VirtualKey(ev.keycode, true)])
  {
    var (e, handled) := RimeEngine.Key(lib, s.engine, ev.sym, env.mods);
    var issued := [EngineCall(Key(ev.sym, env.mods))];
    assert Offer(lib, s, ev, env) == (e, handled, issued);
    if handled {
      assert HandleKey(lib, s, ev, env) == (s.(engine := e, serial := NextSerial(s.serial)), issued + Finish(e, s.serial));
    } else if env.toggle {
      assert issued + [EngineCall(Reset)] == [EngineCall(Key(ev.sym, env.mods)), EngineCall(Reset)];
    } else {
      assert issued + [VirtualKey(ev.keycode, ev.pressed)] == [EngineCall(Key(ev.sym, env.mods)), VirtualKey(ev.keycode, true)];
    }
  }

  /** Whether an event takes the toggle path: not handled, and im_toggle fires. */
  predicate Toggles<S>(lib: Rime.Lib<S>, s: State<S>, ev: KeyEvent, env: KeyEnv)
  {
    s.xkbReady && !Offer(lib, s, ev, env).1 && env.toggle
  }

  /** Two toggles in a row restore the mode, and each resets the engine. */
  lemma ToggleTwice<S>(lib: Rime.Lib<S>, s: State<S>, ev1: KeyEvent, env1: KeyEnv, ev2: KeyEvent, env2: KeyEnv)
    requires Toggles(lib, s, ev1, env1)
    requires Toggles(lib, HandleKey(lib, s, ev1, env1).0, ev2, env2)
    ensures var s2 := HandleKey(lib, HandleKey(lib, s, ev1, env1).0, ev2, env2);
      s2.0.activated == s.activated && EngineCall(Reset) in s2.1
  {
  }

  /** handle_keymap: an identical keymap string is ignored; a new one is stored, decides
      whether an xkb state exists, and is passed on to the virtual keyboard. */
  function HandleKeymap<S>(s: State<S>, keymap: string, compiles: bool): (r: (State<S>, seq<Action>))
    ensures s.keymap == Str(keymap) ==> r == (s, [])
    ensures s.keymap != Str(keymap) ==>
      r.0 == s.(keymap := Str(keymap), xkbReady := compiles) && r.1 == [VirtualKeymap(keymap)]
  {
    if s.keymap == Str(keymap) then (s, [])
    else (s.(keymap := Str(keymap), xkbReady := compiles), [VirtualKeymap(keymap)])
  }

  /** Delivering the same keymap twice is the same as delivering it once. */
  lemma KeymapIdempotent<S>(s: State<S>, keymap: string, compiles: bool)
    ensures var r1 := HandleKeymap(s, keymap, compiles);
      var r2 := HandleKeymap(r1.0, keymap, compiles);
      r2.0 == r1.0 && r2.1 == []
  {
  }

  /** handle_repeat_info. */
  function HandleRepeatInfo<S>(s: State<S>, rate: int, delay: int): (r: State<S>)
    requires -0x8000_0000 <= rate < 0x8000_0000 && -0x8000_0000 <= delay < 0x8000_0000
    ensures r == s.(repeat := RepeatTimer.SetInfo(s.repeat, rate, delay))
    ensures rate >= 0 && delay >= 0 ==> r.repeat.rate == rate && r.repeat.delay == delay
  {
    s.(repeat := RepeatTimer.SetInfo(s.repeat, rate, delay))
  }

  /** handle_reset (activate, deactivate and unavailable): reset the engine, nothing else. */
  function HandleReset<S>(lib: Rime.Lib<S>, s: State<S>): (r: State<S>)
    ensures r.activated == s.activated && r.serial == s.serial && r.keymap == s.keymap
    ensures r.xkbReady == s.xkbReady && r.repeat == s.repeat
    ensures s.engine.NullEngine? ==> r == s
    ensures s.engine.Engine? ==>
      r.engine.Engine? && Rime.Fresh(lib, r.engine.client) &&
      r.engine.client.calls == s.engine.client.calls + [Rime.ClearComposition, Rime.CommitComposition] + Rime.SnapshotCalls
  {
    s.(engine := RimeEngine.Reset(lib, s.engine))
  }

  /** handle_key: the repeat timer is updated first, then the key is routed. */
  function OnKey<S>(lib: Rime.Lib<S>, s: State<S>, ev: KeyEvent, repeats: bool, env: KeyEnv): (r: (State<S>, seq<Action>))
    requires ev.pressed && repeats ==> s.repeat.rate != 0
    ensures ev.pressed && repeats ==> r.0.repeat.key == ev.keycode
    ensures ev.pressed && repeats && 0 < s.repeat.delay < 1000 && s.repeat.rate > 1 ==>
      r.0.repeat.timer == RepeatTimer.Armed(s.repeat.delay * RepeatTimer.NsPerMs, RepeatTimer.NsPerSec / s.repeat.rate)
    ensures ev.pressed && repeats && (1000 <= s.repeat.delay <= 4294 || s.repeat.rate == 1) ==>
      r.0.repeat.timer == s.repeat.timer
    ensures !(ev.pressed && repeats) ==> r.0.repeat == s.repeat.(timer := RepeatTimer.Disarmed)
    ensures !s.xkbReady ==> r.1 == []
    ensures s.xkbReady ==> OutcomeCount(r.1) == 1
  {
    var s1 := s.(repeat := RepeatTimer.Update(s.repeat, ev.keycode, ev.pressed, repeats));
    assert s1.xkbReady ==> OutcomeCount(HandleKey(lib, s1, ev, env).1) == 1 by {
      if s1.xkbReady {
        OneOutcome(lib, s1, ev, env);
      }
    }
    HandleKey(lib, s1, ev, env)
  }

  /** The timer update does not influence routing: handle_key emits what im_handle_key
      emits for the state before the update, and leaves that state with the new timer. */
  lemma OnKeyRoutes<S>(lib: Rime.Lib<S>, s: State<S>, ev: KeyEvent, repeats: bool, env: KeyEnv)
    requires ev.pressed && repeats ==> s.repeat.rate != 0
    ensures OnKey(lib, s, ev, repeats, env).1 == HandleKey(lib, s, ev, env).1
    ensures OnKey(lib, s, ev, repeats, env).0 ==
      HandleKey(lib, s, ev, env).0.(repeat := RepeatTimer.Update(s.repeat, ev.keycode, ev.pressed, repeats))
  {
    RoutingIgnoresRepeat(lib, s, ev, env, RepeatTimer.Update(s.repeat, ev.keycode, ev.pressed, repeats));
  }

  /** im_handle_key never reads the repeat settings: routing from any repeat state gives
      the same actions and the same state apart from that repeat state. */
  lemma RoutingIgnoresRepeat<S>(lib: Rime.Lib<S>, s: State<S>, ev: KeyEvent, env: KeyEnv, repeat: RepeatTimer.Repeat)
    ensures HandleKey(lib, s.(repeat := repeat), ev, env) ==
      (HandleKey(lib, s, ev, env).0.(repeat := repeat), HandleKey(lib, s, ev, env).1)
  {
    assert Offer(lib, s.(repeat := repeat), ev, env) == Offer(lib, s, ev, env);
  }

  /** Routes a sequence of events, each with its own answers from outside. */
  function RouteAll<S>(lib: Rime.Lib<S>, s: State<S>, evs: seq<KeyEvent>, envs: seq<KeyEnv>): (r: (State<S>, seq<Action>))
    requires |envs| == |evs|
    decreases |evs|
  {
    if |evs| == 0 then (s, [])
    else
      var (s1, a1) := HandleKey(lib, s, evs[0], envs[0]);
      var (s2, a2) := RouteAll(lib, s1, evs[1..], envs[1..]);
      (s2, a1 + a2)
  }

  /** Routing n events has n outcomes with a keymap and none without; the keymap and the
      repeat state come through unchanged. */
  lemma {:induction false} RouteAllOutcomes<S>(lib: Rime.Lib<S>, s: State<S>, evs: seq<KeyEvent>, envs: seq<KeyEnv>)
    requires |envs| == |evs|
    ensures OutcomeCount(RouteAll(lib, s, evs, envs).1) == if s.xkbReady then |evs| else 0
    ensures RouteAll(lib, s, evs, envs).0.xkbReady == s.xkbReady
    ensures RouteAll(lib, s, evs, envs).0.repeat == s.repeat
    decreases |evs|
  {
    if |evs| > 0 {
      var (s1, a1) := HandleKey(lib, s, evs[0], envs[0]);
      RouteAllOutcomes(lib, s1, evs[1..], envs[1..]);
      var a2 := RouteAll(lib, s1, evs[1..], envs[1..]).1;
      OutcomeCountAppend(a1, a2);
      if s.xkbReady {
        OneOutcome(lib, s, evs[0], envs[0]);
      }
    }
  }

  /** What the virtual keyboard receives when every event is forwarded as it came. */
  function ForwardAll(evs: seq<KeyEvent>): (r: seq<Action>)
    ensures |r| == |evs|
    ensures forall i :: 0 <= i < |evs| ==> r[i] == VirtualKey(evs[i].keycode, evs[i].pressed)
    decreases |evs|
  {
    if |evs| == 0 then [] else [VirtualKey(evs[0].keycode, evs[0].pressed)] + ForwardAll(evs[1..])
  }

  /** Without a keymap nothing is routed; in inactive mode, with im_toggle never firing,
      every event goes out through the virtual keyboard unchanged and the state stays put. */
  lemma {:induction false} RouteAllInactive<S>(lib: Rime.Lib<S>, s: State<S>, evs: seq<KeyEvent>, envs: seq<KeyEnv>)
    requires |envs| == |evs|
    ensures !s.xkbReady ==> RouteAll(lib, s, evs, envs) == (s, [])
    ensures s.xkbReady && !s.activated && (forall i :: 0 <= i < |envs| ==> !envs[i].toggle) ==>
      RouteAll(lib, s, evs, envs) == (s, ForwardAll(evs))
    decreases |evs|
  {
    if |evs| > 0 {
      RouteAllInactive(lib, s, evs[1..], envs[1..]);
      if !s.xkbReady {
        assert HandleKey(lib, s, evs[0], envs[0]) == (s, []);
        var none: seq<Action> := [];
        assert none + none == none;
      }
      if s.xkbReady && !s.activated && (forall i :: 0 <= i < |envs| ==> !envs[i].toggle) {
        assert !envs[0].toggle;
        assert forall i :: 0 <= i < |envs[1..]| ==> !envs[1..][i].toggle by {
          forall i | 0 <= i < |envs[1..]| ensures !envs[1..][i].toggle {
            assert envs[1..][i] == envs[i + 1];
          }
        }
        NotActiveOrRelease(lib, s, evs[0], envs[0]);
      }
    }
  }

  /** n auto-repeats of a key as the virtual keyboard sees them: press, release, n times. */
  function Repeats(keycode: nat, n: nat): (r: seq<Action>)
    ensures |r| == 2 * n
    ensures forall i :: 0 <= i < |r| ==> r[i] == VirtualKey(keycode, i % 2 == 0)
    decreases n
  {
    if n == 0 then [] else [VirtualKey(keycode, true), VirtualKey(keycode, false)] + Repeats(keycode, n - 1)
  }

  /** The events a timer read of n expirations turns into: press, release, n times over. */
  function TickEvents(keycode: nat, sym: K.Keysym, n: nat): (evs: seq<KeyEvent>)
    ensures |evs| == 2 * n
    ensures forall i :: 0 <= i < |evs| ==> evs[i] == KeyEvent(keycode, sym, i % 2 == 0)
    decreases n
  {
    if n == 0 then []
    else [KeyEvent(keycode, sym, true), KeyEvent(keycode, sym, false)] + TickEvents(keycode, sym, n - 1)
  }

  /** The repeat branch of im_loop: n ticks route 2n events of the repeat key, straight to
      im_handle_key, so the timer is left alone. */
  function HandleTicks<S>(lib: Rime.Lib<S>, s: State<S>, sym: K.Keysym, n: nat, envs: seq<KeyEnv>): (r: (State<S>, seq<Action>))
    requires |envs| == 2 * n
    ensures OutcomeCount(r.1) == if s.xkbReady then 2 * n else 0
    ensures r.0.repeat == s.repeat
    ensures n == 0 ==> r == (s, [])
    ensures !s.xkbReady ==> r == (s, [])
    ensures s.xkbReady && !s.activated && (forall i :: 0 <= i < |envs| ==> !envs[i].toggle) ==>
      r == (s, Repeats(s.repeat.key, n))
  {
    var evs := TickEvents(s.repeat.key, sym, n);
    RouteAllOutcomes(lib, s, evs, envs);
    RouteAllInactive(lib, s, evs, envs);
    assert ForwardAll(evs) == Repeats(s.repeat.key, n);
    RouteAll(lib, s, evs, envs)
  }

  /** One more tick routes a press and then a release of the repeat key, with the keysym
      resolved for it, before the remaining ticks. */
  lemma {:induction false} HandleTicksUnfold<S>(lib: Rime.Lib<S>, s: State<S>, sym: K.Keysym, n: nat, envs: seq<KeyEnv>)
    requires |envs| == 2 * (n + 1)
    ensures var r1 := HandleKey(lib, s, KeyEvent(s.repeat.key, sym, true), envs[0]);
      var r2 := HandleKey(lib, r1.0, KeyEvent(s.repeat.key, sym, false), envs[1]);
      var r3 := HandleTicks(lib, r2.0, sym, n, envs[2..]);
      HandleTicks(lib, s, sym, n + 1, envs) == (r3.0, r1.1 + r2.1 + r3.1)
  {
    var evs := TickEvents(s.repeat.key, sym, n + 1);
    assert evs[0] == KeyEvent(s.repeat.key, sym, true);
    assert evs[1] == KeyEvent(s.repeat.key, sym, false);
    assert evs[2..] == TickEvents(s.repeat.key, sym, n);
    RouteAllTwo(lib, s, evs, envs);
  }

  /** Routing two or more events routes the first two, then the rest from there; the
      repeat state is the same throughout. */
  lemma RouteAllTwo<S>(lib: Rime.Lib<S>, s: State<S>, evs: seq<KeyEvent>, envs: seq<KeyEnv>)
    requires |envs| == |evs| >= 2
    ensures var r1 := HandleKey(lib, s, evs[0], envs[0]);
      var r2 := HandleKey(lib, r1.0, evs[1], envs[1]);
      var r3 := RouteAll(lib, r2.0, evs[2..], envs[2..]);
      r2.0.repeat == s.repeat && RouteAll(lib, s, evs, envs) == (r3.0, r1.1 + r2.1 + r3.1)
  {
    var r1 := HandleKey(lib, s, evs[0], envs[0]);
    var r2 := HandleKey(lib, r1.0, evs[1], envs[1]);
    assert evs[1..][0] == evs[1] && evs[1..][1..] == evs[2..] && envs[1..][0] == envs[1] && envs[1..][1..] == envs[2..];
    var r3 := RouteAll(lib, r2.0, evs[2..], envs[2..]);
    assert RouteAll(lib, r1.0, evs[1..], envs[1..]) == (r3.0, r2.1 + r3.1);
    assert r1.1 + (r2.1 + r3.1) == r1.1 + r2.1 + r3.1;
  }
}
