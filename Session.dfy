/** The viewer state of interactive.py as a pure state machine: the fields of
    `State`, the undo depth of the scene viewer and the edited node, with one
    function per callback. The class in Interactive.dfy is proved to perform
    exactly these transitions. */
module Session {
  import opened Host

  datatype Machine = Machine(
    pressed: bool,
    index: nat,
    angle: int,
    size: int,
    pivot: int,
    switch: Option<Value>,      // the `switch` value read by the last pointCount
    color: Tuple,
    depth: int,                 // state undo groups begun minus ended
    parms: map<Name, Value>,  // the node's parameter table
    pieces: seq<Piece>,         // the instances of the `points` multiparm
    blank: Piece,               // what a newly inserted instance holds
    snapping: SnappingMode,     // the viewer's snapping mode
    savedSnap: SnappingMode)    // the mode saved on entering

  /** The machine is well formed: the node has the parameters the state uses,
      and while a press lasts its slot exists and its variant is known. */
  predicate Wf(m: Machine)
  {
    && StateTemplate(m.parms)
    && (m.pressed ==> m.index < |m.pieces| && m.switch.Some?)
  }

  /** Undo groups are balanced: one is open exactly while a press lasts. */
  predicate Balanced(m: Machine)
  {
    m.depth == if m.pressed then 1 else 0
  }

  predicate SizeInRange(m: Machine)
  {
    1 <= m.size <= 5
  }

  /** What the host tells one mouse event: the buttons, whether the ray
      snapped and where, where it meets the construction plane, the
      primitive number the ray hits on the node's geometry (-1 for none),
      and what the node's `collide` parameter evaluates to at this event
      (the node computes it; the state reads it afresh and never writes it). */
  datatype MouseInput = MouseInput(lmb: bool, ctrl: bool, snapped: bool,
                                   snapPos: Tuple, planePos: Tuple, geoHit: int,
                                   collide: int)

  /** `start`: unless a press is already on, open an undo group, read the
      piece count (capturing `switch`) and insert a blank piece there. */
  function Start(m: Machine): (r: Machine)
    requires Wf(m)
    ensures Wf(r) && r.pressed
    ensures Balanced(m) ==> Balanced(r)
  {
    if m.pressed then m
    else
      var count := |m.pieces|;
      m.(depth := m.depth + 1, switch := Some(m.parms[Switch]), index := count,
         pieces := m.pieces[..count] + [m.blank] + m.pieces[count..], pressed := true)
  }

  /** `start` while a press is on changes nothing; otherwise it opens exactly
      one undo group and appends one blank piece whose index is the piece
      count before the insertion. */
  lemma StartContract(m: Machine)
    requires Wf(m)
    ensures m.pressed ==> Start(m) == m
    ensures !m.pressed ==>
      && Start(m).depth == m.depth + 1
      && Start(m).index == |m.pieces|
      && Start(m).pieces == m.pieces + [m.blank]
      && Start(m).switch == Some(m.parms[Switch])
      && Start(m).(pressed := m.pressed, depth := m.depth, index := m.index,
                   switch := m.switch, pieces := m.pieces) == m
  {
    if !m.pressed {
      var count := |m.pieces|;
      assert m.pieces[..count] == m.pieces && m.pieces[count..] == [];
    }
  }

  /** `finish`: close the undo group if a press is on; the press ends. */
  function Finish(m: Machine): (r: Machine)
    ensures !r.pressed
    ensures Balanced(m) ==> Balanced(r) && r.depth == 0
    ensures Wf(m) ==> Wf(r)
  {
    m.(depth := if m.pressed then m.depth - 1 else m.depth, pressed := false)
  }

  /** `endStateUndo` is called exactly when a press is on, and nothing but
      the flag and the undo depth changes. */
  lemma FinishContract(m: Machine)
    ensures Finish(m).depth == if m.pressed then m.depth - 1 else m.depth
    ensures Finish(m).(pressed := m.pressed, depth := m.depth) == m
  {
  }

  predicate IsSizeKey(key: string)
  {
    key == "+" || key == "-"
  }

  predicate IsStateKey(key: string)
  {
    key == "c" || key == "x" || key == "z" || IsSizeKey(key)
  }

  /** `onKeyEvent`; `picked` is what the colour dialog returned (None when it
      raised). The second component is the handler's return value. */
  function Key(m: Machine, key: string, picked: Option<Tuple>): (r: (Machine, bool))
    requires Wf(m)
    ensures Wf(r.0)
    ensures r.0.pressed == m.pressed && r.0.depth == m.depth && r.0.pieces == m.pieces
  {
    if key == "c" then
      (match picked
       case Some(rgb) => (m.(color := rgb), true)
       case None => (m, true))
    else if key == "x" then
      var angle := m.angle + 90;
      (m.(angle := angle, parms := m.parms[Angles := IntValue(angle)]), true)
    else if key == "+" && m.size < 5 then
      var reset := m.parms[PpVis := IntValue(0)];
      var size := m.size + 1;
      (m.(pivot := reset[PpVis].n, size := size,
          parms := reset[SizeVis := IntValue(size)]), true)
    else if key == "-" && m.size > 1 then
      var reset := m.parms[PpVis := IntValue(0)];
      var size := m.size - 1;
      (m.(pivot := reset[PpVis].n, size := size,
          parms := reset[SizeVis := IntValue(size)]), true)
    else if key == "z" then
      var pivot := m.pivot + 1;
      (m.(pivot := pivot, parms := m.parms[PpVis := IntValue(pivot)]), true)
    else
      (m, false)
  }

  /** What each key does: "c" is always handled; "x" turns by 90 degrees;
      "z" moves the pivot on; "+" and "-" step the size only inside 1..5 and
      then reset the pivot; any other key, and a size key at its bound, is
      not handled and changes nothing. */
  lemma KeyContract(m: Machine, key: string, picked: Option<Tuple>)
    requires Wf(m)
    ensures !Key(m, key, picked).1 ==> Key(m, key, picked).0 == m
    ensures !IsStateKey(key) ==> !Key(m, key, picked).1
    ensures key == "c" ==> Key(m, key, picked) == (if picked.Some? then m.(color := picked.value) else m, true)
    ensures key == "x" ==>
      && Key(m, key, picked).1
      && Key(m, key, picked).0 == m.(angle := m.angle + 90, parms := m.parms[Angles := IntValue(m.angle + 90)])
    ensures key == "z" ==>
      && Key(m, key, picked).1
      && Key(m, key, picked).0 == m.(pivot := m.pivot + 1, parms := m.parms[PpVis := IntValue(m.pivot + 1)])
    ensures key == "+" ==> (Key(m, key, picked).1 <==> m.size < 5)
    ensures key == "-" ==> (Key(m, key, picked).1 <==> m.size > 1)
    ensures IsSizeKey(key) && Key(m, key, picked).1 ==>
      var size := if key == "+" then m.size + 1 else m.size - 1;
      Key(m, key, picked).0 == m.(size := size, pivot := 0,
                                  parms := m.parms[PpVis := IntValue(0)][SizeVis := IntValue(size)])
  {
  }

  /** The size keys keep a size in 1..5 inside 1..5. */
  lemma KeyKeepsSizeInRange(m: Machine, key: string, picked: Option<Tuple>)
    requires Wf(m) && SizeInRange(m)
    ensures SizeInRange(Key(m, key, picked).0)
  {
  }

  /** `onMouseWheelEvent` */
  function Wheel(m: Machine, scroll: int): (r: Machine)
    requires Wf(m)
    ensures Wf(r)
    ensures r.pressed == m.pressed && r.depth == m.depth && r.pieces == m.pieces
  {
    m.(parms := m.parms[Switch := IntValue(m.parms[Switch].n + scroll)])
  }

  /** The wheel adds the scroll amount to the `switch` parameter and changes
      nothing else, not even the variant the ongoing press writes. */
  lemma WheelContract(m: Machine, scroll: int)
    requires Wf(m)
    ensures Wheel(m, scroll).parms.Keys == m.parms.Keys
    ensures Wheel(m, scroll).parms[Switch] == IntValue(m.parms[Switch].n + scroll)
    ensures forall name :: name in m.parms && name != Switch ==> Wheel(m, scroll).parms[name] == m.parms[name]
    ensures Wheel(m, scroll).(parms := m.parms) == m
  {
    var p := Wheel(m, scroll).parms;
    assert p == m.parms[Switch := IntValue(m.parms[Switch].n + scroll)];
    forall name | name in m.parms && name != Switch
      ensures p[name] == m.parms[name]
    {
    }
  }

  /** The guard of "create/move". */
  predicate Creates(ev: MouseInput)
  {
    ev.lmb && ev.snapped && !ev.ctrl && ev.collide == 0
  }

  /** The guard of "remove". */
  predicate Removes(ev: MouseInput)
  {
    ev.lmb && ev.ctrl && ev.geoHit != -1
  }

  /** The values a create/move event gives the current slot. */
  function Placed(m: Machine, ev: MouseInput): (p: Piece)
    requires m.switch.Some?
  {
    Piece(1, ev.snapPos, m.switch.value, m.color, m.angle, m.size, m.pivot)
  }

  /** The piece list once instance i is removed (unchanged when i names no
      instance: the host raises and the handler swallows it). */
  function RemoveAt(pieces: seq<Piece>, i: int): (r: seq<Piece>)
    ensures 0 <= i < |pieces| ==>
      && |r| == |pieces| - 1
      && (forall j :: 0 <= j < i ==> r[j] == pieces[j])
      && (forall j :: i <= j < |r| ==> r[j] == pieces[j + 1])
    ensures !(0 <= i < |pieces|) ==> r == pieces
  {
    if 0 <= i < |pieces| then pieces[..i] + pieces[i + 1..] else pieces
  }

  /** `onMouseEvent`; the second component is the handler's return value
      (True after a removal attempt, None otherwise). */
  function Mouse(m: Machine, ev: MouseInput): (r: (Machine, bool))
    requires Wf(m)
    ensures Wf(r.0)
    ensures Balanced(m) ==> Balanced(r.0)
  {
    var after := Mirrored(Edited(Shown(m, ev), ev), ev);
    if ev.lmb && ev.ctrl && ev.geoHit != -1 then
      (after.(pieces := RemoveAt(after.pieces, ev.geoHit)), true)
    else
      (after, false)
  }

  /** The piece visualiser: `mouse_pos` follows the snap (or the plane
      point), `color_vis` shows the current colour. */
  function Shown(m: Machine, ev: MouseInput): (r: Machine)
    requires Wf(m)
    ensures Wf(r) && r.(parms := m.parms) == m
  {
    var mouse := if ev.snapped then ev.snapPos else ev.planePos;
    m.(parms := m.parms[MousePos := TupleValue(mouse)][ColorVis := TupleValue(m.color)])
  }

  /** Create/move into the current slot, or finish the press. */
  function Edited(m: Machine, ev: MouseInput): (r: Machine)
    requires Wf(m)
    ensures Wf(r) && r.parms == m.parms
    ensures Balanced(m) ==> Balanced(r)
  {
    if ev.lmb && ev.snapped && !ev.ctrl && ev.collide == 0 then
      var s := Start(m);
      s.(pieces := s.pieces[s.index := Placed(s, ev)])
    else
      Finish(m)
  }

  /** The `ctrl` parameter mirrors the ctrl key. */
  function Mirrored(m: Machine, ev: MouseInput): (r: Machine)
    requires Wf(m)
    ensures Wf(r) && r.(parms := m.parms) == m
  {
    m.(parms := m.parms[Ctrl := IntValue(if ev.ctrl then 1 else 0)])
  }

  /** The guards of one mouse event: the press lasts exactly while
      create/move holds, the handler returns True exactly when it tries a
      removal, and the two never happen in the same event. */
  lemma MouseGuards(m: Machine, ev: MouseInput)
    requires Wf(m)
    ensures Mouse(m, ev).0.pressed == Creates(ev)
    ensures Mouse(m, ev).1 == Removes(ev)
    ensures !(Creates(ev) && Removes(ev))
  {
  }

  /** Of the parameters one mouse event writes `mouse_pos`, which follows
      the snap (or the construction-plane point), `color_vis`, which shows
      the current colour, and `ctrl`, which mirrors the key; no other. */
  lemma MouseParms(m: Machine, ev: MouseInput)
    requires Wf(m)
    ensures Mouse(m, ev).0.parms ==
      m.parms[MousePos := TupleValue(if ev.snapped then ev.snapPos else ev.planePos)]
             [ColorVis := TupleValue(m.color)][Ctrl := IntValue(if ev.ctrl then 1 else 0)]
  {
    var shown := Shown(m, ev);
    assert Mirrored(Edited(shown, ev), ev).parms == shown.parms[Ctrl := IntValue(if ev.ctrl then 1 else 0)];
  }

  /** A mouse event never touches the counters, the colour or the snapping
      of the state: besides the parameters it changes only the press, the
      slot, the captured variant, the undo depth and the pieces. */
  lemma MouseKeepsSettings(m: Machine, ev: MouseInput)
    requires Wf(m)
    ensures Mouse(m, ev).0.(pressed := m.pressed, depth := m.depth, index := m.index, switch := m.switch,
                            parms := m.parms, pieces := m.pieces) == m
  {
  }

  /** Create/move: a new press appends one piece at index `|pieces|` with the
      `switch` value read when the press started; a press already on
      rewrites its own slot with the variant captured at its start. Either
      way the slot ends up holding exactly the state's current values. */
  lemma MouseCreates(m: Machine, ev: MouseInput)
    requires Wf(m) && Creates(ev)
    ensures var r := Mouse(m, ev).0;
      && r.switch == (if m.pressed then m.switch else Some(m.parms[Switch]))
      && r.pieces[r.index] == Placed(r, ev)
      && (!m.pressed ==> r.index == |m.pieces| && r.pieces == m.pieces + [Placed(r, ev)] && r.depth == m.depth + 1)
      && (m.pressed ==> r.index == m.index && r.pieces == m.pieces[m.index := Placed(m, ev)] && r.depth == m.depth)
  {
    StartContract(Shown(m, ev));
  }

  /** Without create/move the press finishes; then the piece list changes
      only by a successful removal, and a removal whose index names no
      piece leaves it as it was. */
  lemma MouseOtherwise(m: Machine, ev: MouseInput)
    requires Wf(m) && !Creates(ev)
    ensures Mouse(m, ev).0.pieces == if Removes(ev) then RemoveAt(m.pieces, ev.geoHit) else m.pieces
    ensures Mouse(m, ev).0.depth == if m.pressed then m.depth - 1 else m.depth
  {
  }

  /** `onEnter` on the node the machine edits. */
  function Enter(m: Machine): (r: Machine)
    requires StateTemplate(m.parms)
    ensures StateTemplate(r.parms)
    ensures r.pressed == m.pressed && r.depth == m.depth && r.pieces == m.pieces && r.index == m.index
    ensures Wf(m) ==> Wf(r)
  {
    m.(angle := m.parms[Angles].n, color := m.parms[ColorVis].t,
       size := m.parms[SizeVis].n, pivot := m.parms[PpVis].n,
       savedSnap := m.snapping, snapping := Point,
       parms := m.parms[RemovePts := IntValue(0)])
  }

  /** `onExit` */
  function Exit(m: Machine): (r: Machine)
    requires RemovePts in m.parms
    ensures RemovePts in r.parms
    ensures r.pressed == m.pressed && r.depth == m.depth && r.pieces == m.pieces && r.index == m.index
    ensures Wf(m) ==> Wf(r)
  {
    m.(parms := m.parms[RemovePts := IntValue(1)], snapping := m.savedSnap)
  }

  /** `onExit` does not call `finish`: leaving the state during a press
      keeps the press and leaves its undo group open. */
  lemma ExitDuringPressLeavesGroupOpen(m: Machine)
    requires Wf(m) && Balanced(m) && m.pressed
    ensures Exit(m).pressed && Exit(m).depth == 1
  {
  }

  /** Entering loads the counters from the node, switches to point snapping
      and shows the guide points; leaving hides them and gives back the
      snapping mode that was in force before entering. */
  lemma EnterExitContract(m: Machine)
    requires StateTemplate(m.parms)
    ensures Enter(m).angle == m.parms[Angles].n && Enter(m).size == m.parms[SizeVis].n
    ensures Enter(m).pivot == m.parms[PpVis].n && Enter(m).color == m.parms[ColorVis].t
    ensures Enter(m).snapping == Point && Enter(m).parms[RemovePts] == IntValue(0)
    ensures Exit(Enter(m)).snapping == m.snapping
    ensures Exit(Enter(m)).parms == m.parms[RemovePts := IntValue(1)]
  {
  }

  /** The callbacks the host may deliver while the state is active. */
  datatype Event =
    | KeyPress(key: string, picked: Option<Tuple>)
    | Scroll(amount: int)
    | Click(input: MouseInput)
    | Interrupt

  function Step(m: Machine, e: Event): (r: Machine)
    requires Wf(m)
    ensures Wf(r)
    ensures Balanced(m) ==> Balanced(r)
  {
    match e
    case KeyPress(key, picked) => Key(m, key, picked).0
    case Scroll(amount) => Wheel(m, amount)
    case Click(input) => Mouse(m, input).0
    case Interrupt => Finish(m)
  }

  /** `onInterrupt` leaves no undo group open. */
  lemma InterruptClosesUndo(m: Machine)
    requires Wf(m) && Balanced(m)
    ensures !Step(m, Interrupt).pressed && Step(m, Interrupt).depth == 0
  {
  }

  /** One event inserts at most one piece. */
  lemma StepAddsAtMostOne(m: Machine, e: Event)
    requires Wf(m)
    ensures |Step(m, e).pieces| <= |m.pieces| + 1
  {
    if e.Click? {
      if Creates(e.input) {
        MouseCreates(m, e.input);
      } else {
        MouseOtherwise(m, e.input);
      }
    }
  }

  function Run(m: Machine, es: seq<Event>): (r: Machine)
    requires Wf(m)
    ensures Wf(r)
    decreases |es|
  {
    if es == [] then m else Run(Step(m, es[0]), es[1..])
  }

  /** Undo groups are never nested or left dangling: along any run the
      number of groups begun minus those ended is 0 or 1 and equals `pressed`. */
  lemma {:induction false} RunStaysBalanced(m: Machine, es: seq<Event>)
    requires Wf(m) && Balanced(m)
    ensures Balanced(Run(m, es))
    ensures 0 <= Run(m, es).depth <= 1
    decreases |es|
  {
    if es != [] {
      RunStaysBalanced(Step(m, es[0]), es[1..]);
    }
  }

  /** A size in 1..5 stays in 1..5 whatever the events. */
  lemma {:induction false} RunKeepsSizeInRange(m: Machine, es: seq<Event>)
    requires Wf(m) && SizeInRange(m)
    ensures SizeInRange(Run(m, es))
    decreases |es|
  {
    if es != [] {
      var e := es[0];
      if e.KeyPress? {
        KeyKeepsSizeInRange(m, e.key, e.picked);
      } else if e.Click? {
        MouseKeepsSettings(m, e.input);
      }
      RunKeepsSizeInRange(Step(m, e), es[1..]);
    }
  }

  /** Each event inserts at most one piece. */
  lemma {:induction false} RunAddsAtMostOnePerEvent(m: Machine, es: seq<Event>)
    requires Wf(m)
    ensures |Run(m, es).pieces| <= |m.pieces| + |es|
    decreases |es|
  {
    if es != [] {
      StepAddsAtMostOne(m, es[0]);
      RunAddsAtMostOnePerEvent(Step(m, es[0]), es[1..]);
    }
  }

  /** A create/move event: left button down, snapped, ctrl up and `collide`
      evaluating to 0. */
  predicate IsMove(e: Event)
  {
    e.Click? && Creates(e.input)
  }

  predicate Drag(es: seq<Event>)
  {
    forall i :: 0 <= i < |es| ==> IsMove(es[i])
  }

  lemma DragTail(es: seq<Event>)
    requires |es| > 0 && Drag(es)
    ensures IsMove(es[0]) && Drag(es[1..])
  {
    forall i | 0 <= i < |es[1..]| ensures IsMove(es[1..][i]) {
      assert es[1..][i] == es[i + 1];
    }
  }

  /** One move while the button stays pressed rewrites the slot in place. */
  lemma MoveKeepsSlot(m: Machine, e: Event)
    requires Wf(m) && m.pressed && IsMove(e)
    ensures Step(m, e).pressed && Step(m, e).index == m.index && Step(m, e).depth == m.depth
    ensures Step(m, e).pieces == m.pieces[m.index := Placed(m, e.input)]
  {
    MouseCreates(m, e.input);
    MouseGuards(m, e.input);
  }

  /** While the button stays pressed, the moves rewrite the same slot: the
      slot index, the piece count, the open undo group and every other piece
      are left as they were. */
  lemma {:induction false} DragRewritesSameSlot(m: Machine, es: seq<Event>)
    requires Wf(m) && m.pressed && Drag(es)
    ensures Run(m, es).pressed && Run(m, es).index == m.index && Run(m, es).depth == m.depth
    ensures |Run(m, es).pieces| == |m.pieces|
    ensures forall j :: 0 <= j < |m.pieces| && j != m.index ==> Run(m, es).pieces[j] == m.pieces[j]
    decreases |es|
  {
    if es != [] {
      DragTail(es);
      var next := Step(m, es[0]);
      MoveKeepsSlot(m, es[0]);
      DragRewritesSameSlot(next, es[1..]);
      assert Run(m, es) == Run(next, es[1..]);
    }
  }

  /** A press followed by a drag adds exactly one piece, at the end, and
      keeps all earlier pieces. */
  lemma {:induction false} PressAddsOnePiece(m: Machine, es: seq<Event>)
    requires Wf(m) && !m.pressed
    requires |es| > 0 && Drag(es)
    ensures Run(m, es).pressed && Run(m, es).index == |m.pieces|
    ensures |Run(m, es).pieces| == |m.pieces| + 1
    ensures Run(m, es).pieces[..|m.pieces|] == m.pieces
  {
    DragTail(es);
    MouseCreates(m, es[0].input);
    MouseGuards(m, es[0].input);
    var first := Step(m, es[0]);
    assert first.pieces[..|m.pieces|] == m.pieces;
    DragRewritesSameSlot(first, es[1..]);
    var last := Run(first, es[1..]);
    assert last.pieces[..|m.pieces|] == m.pieces by {
      forall j | 0 <= j < |m.pieces|
        ensures last.pieces[j] == m.pieces[j]
      {
        assert first.pieces[j] == m.pieces[j];
      }
    }
  }
}
