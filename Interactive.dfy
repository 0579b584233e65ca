/** The viewer state `State` of interactive.py. Its methods update its own
    fields and the node in place; each one is proved to perform the
    transition of the same name in module Session. */
module Interactive {
  import opened Host
  import opened Session

  class State {
    const viewer: SceneViewer
    var node: Node?
    var pressed: bool
    var index: nat
    var angle: int
    var size: int
    var pivot: int
    var switch: Option<Value>
    var color: Tuple
    var currentSnap: SnappingMode

    /** The machine the object stands for while it edits node `n`. */
    ghost function AbsOf(n: Node): Machine
      reads this, viewer, n, n.points
      requires n.points != null
    {
      Machine(pressed, index, angle, size, pivot, switch, color, viewer.depth,
              n.parms, n.points.instances, n.points.blank, viewer.snapping, currentSnap)
    }

    ghost function Abs(): Machine
      reads this, viewer, node, if node != null then {node.points} else {}
      requires node != null && node.points != null
    {
      AbsOf(node)
    }

    /** Before `onEnter` no press and no undo group; afterwards the node has
        the parameters the state uses and the undo groups are balanced. */
    ghost predicate Valid()
      reads this, viewer, node, if node != null then {node.points} else {}
    {
      && (node == null ==> !pressed && viewer.depth == 0)
      && (node != null ==> node.points != null && Wf(Abs()) && Balanced(Abs()))
    }

    /** `__init__`: the host creates the state with no undo group open. */
    constructor (viewer: SceneViewer)
      requires viewer.depth == 0
      ensures this.viewer == viewer && node == null
      ensures Valid()
      ensures !pressed && index == 0 && switch == None
    {
      this.viewer := viewer;
      node := null;
      pressed := false;
      index := 0;
      switch := None;
      angle, size, pivot, color, currentSnap := 0, 0, 0, [], Off;
    }

    /** `pointCount`: the number of pieces, or 0 when there is no node or it
        lacks `switch` or `points`; also captures `switch` when it can. */
    method PointCount() returns (count: nat)
      modifies this`switch
      ensures node == null || Switch !in node.parms ==> count == 0 && switch == old(switch)
      ensures node != null && Switch in node.parms ==>
        && switch == Some(node.parms[Switch])
        && count == if node.points == null then 0 else |node.points.instances|
    {
      if node == null || Switch !in node.parms {
        return 0;
      }
      switch := Some(node.parms[Switch]);
      if node.points == null {
        return 0;
      }
      count := |node.points.instances|;
    }

    method Start()
      requires Valid() && node != null
      modifies this, viewer, node.points
      ensures node == old(node) && node.points == old(node.points) && node.parms == old(node.parms)
      ensures Abs() == Session.Start(old(Abs()))
      ensures Valid()
    {
      if !pressed {
        viewer.BeginStateUndo();
        index := PointCount();
        var multiparm := node.points;
        multiparm.InsertInstance(index);
        pressed := true;
      }
    }

    method Finish()
      requires Valid() && node != null
      modifies this`pressed, viewer
      ensures Abs() == Session.Finish(old(Abs()))
      ensures Valid()
    {
      if pressed {
        viewer.EndStateUndo();
      }
      pressed := false;
    }

    /** The first half of `onEnter`: take the node and load the counters and
        the colour from its parameters. */
    method Load(nd: Node)
      requires nd.points != null && StateTemplate(nd.parms)
      modifies this`node, this`angle, this`color, this`size, this`pivot
      ensures node == nd
      ensures AbsOf(nd) == old(AbsOf(nd)).(angle := nd.parms[Angles].n, color := nd.parms[ColorVis].t,
                                           size := nd.parms[SizeVis].n, pivot := nd.parms[PpVis].n)
    {
      node := nd;
      angle := nd.parms[Angles].n;
      color := nd.parms[ColorVis].t;
      size := nd.parms[SizeVis].n;
      pivot := nd.parms[PpVis].n;
    }

    /** `onEnter(kwargs)` with `kwargs["node"] == nd`. */
    method OnEnter(nd: Node)
      requires Valid() && !pressed
      requires nd.points != null && StateTemplate(nd.parms)
      modifies this, viewer, nd
      ensures node == nd && nd.points == old(nd.points)
      ensures Abs() == Session.Enter(old(AbsOf(nd)))
      ensures Valid()
    {
      ghost var m0 := AbsOf(nd);
      Load(nd);
      currentSnap := viewer.snapping;
      viewer.SetSnappingMode(Point);
      nd.Set(RemovePts, IntValue(0));
      assert Abs() == Session.Enter(m0);
    }

    method OnExit()
      requires Valid() && node != null
      modifies viewer, node
      ensures node.points == old(node.points)
      ensures Abs() == Session.Exit(old(Abs()))
      ensures Valid()
    {
      node.Set(RemovePts, IntValue(1));
      viewer.SetSnappingMode(currentSnap);
    }

    method OnInterrupt()
      requires Valid() && node != null
      modifies this`pressed, viewer
      ensures Abs() == Session.Finish(old(Abs()))
      ensures Valid()
      ensures !pressed && viewer.depth == 0
    {
      Finish();
    }

    /** The "x" branch of `onKeyEvent`: turn by 90 degrees and show it. */
    method Turn()
      requires node != null && node.points != null && Angles in node.parms
      modifies this`angle, node
      ensures node.points == old(node.points)
      ensures Abs() == old(Abs()).(angle := old(angle) + 90,
                                   parms := old(node.parms)[Angles := IntValue(old(angle) + 90)])
    {
      angle := angle + 90;
      node.Set(Angles, IntValue(angle));
    }

    /** The "+" and "-" branches of `onKeyEvent` once the bound check has
        passed: reset the pivot, step the size and show it. */
    method Resize(step: int)
      requires node != null && node.points != null && PpVis in node.parms && SizeVis in node.parms
      modifies this`pivot, this`size, node
      ensures node.points == old(node.points)
      ensures Abs() == old(Abs()).(pivot := 0, size := old(size) + step,
                                   parms := old(node.parms)[PpVis := IntValue(0)][SizeVis := IntValue(old(size) + step)])
    {
      node.Set(PpVis, IntValue(0));
      pivot := node.parms[PpVis].n;
      size := size + step;
      node.Set(SizeVis, IntValue(size));
    }

    /** The "z" branch of `onKeyEvent`: move the pivot on and show it. */
    method NextPivot()
      requires node != null && node.points != null && PpVis in node.parms
      modifies this`pivot, node
      ensures node.points == old(node.points)
      ensures Abs() == old(Abs()).(pivot := old(pivot) + 1,
                                   parms := old(node.parms)[PpVis := IntValue(old(pivot) + 1)])
    {
      pivot := pivot + 1;
      node.Set(PpVis, IntValue(pivot));
    }

    /** `onKeyEvent`; `picked` is the colour dialog's answer (None when the
        dialog raised). */
    method OnKeyEvent(key: string, picked: Option<Tuple>) returns (handled: bool)
      requires Valid() && node != null
      modifies this`color, this`angle, this`size, this`pivot, node
      ensures node.points == old(node.points)
      ensures (Abs(), handled) == Session.Key(old(Abs()), key, picked)
      ensures Valid()
    {
      handled := true;
      if key == "c" {
        if picked.Some? {
          color := picked.value;
        }
      } else if key == "x" {
        Turn();
      } else if key == "+" && size < 5 {
        Resize(1);
      } else if key == "-" && size > 1 {
        Resize(-1);
      } else if key == "z" {
        NextPivot();
      } else {
        handled := false;
      }
    }

    method OnMouseWheelEvent(scroll: int)
      requires Valid() && node != null
      modifies node
      ensures node.points == old(node.points)
      ensures Abs() == Session.Wheel(old(Abs()), scroll)
      ensures Valid()
    {
      var value := node.parms[Switch].n + scroll;
      node.Set(Switch, IntValue(value));
    }

    /** The seven writes of a create/move into the slot `index`, one
        parameter of the instance at a time. */
    method WriteSlot(multiparm: Multiparm, pt: Tuple)
      requires index < |multiparm.instances| && switch.Some?
      modifies multiparm
      ensures multiparm.instances ==
        old(multiparm.instances)[index := Piece(1, pt, switch.value, color, angle, size, pivot)]
    {
      multiparm.SetField(index, Usept(1));
      multiparm.SetField(index, Pt(pt));
      multiparm.SetField(index, Variant(switch.value));
      multiparm.SetField(index, Color(color));
      multiparm.SetField(index, Rotate(angle));
      multiparm.SetField(index, Size(size));
      multiparm.SetField(index, Pp(pivot));
    }

    /** The piece visualiser part of `onMouseEvent`. */
    method ShowPiece(ev: MouseInput)
      requires Valid() && node != null
      modifies node
      ensures node.points == old(node.points)
      ensures Abs() == Shown(old(Abs()), ev)
      ensures Valid()
    {
      node.Set(MousePos, TupleValue(if ev.snapped then ev.snapPos else ev.planePos));
      node.Set(ColorVis, TupleValue(color));
    }

    /** The create/move-or-finish part of `onMouseEvent`. */
    method EditSlot(ev: MouseInput)
      requires Valid() && node != null
      modifies this, viewer, node.points
      ensures node == old(node) && node.points == old(node.points) && node.parms == old(node.parms)
      ensures Abs() == Edited(old(Abs()), ev)
      ensures Valid()
    {
      var collide := ev.collide;
      if ev.lmb && ev.snapped && !ev.ctrl && collide == 0 {
        Start();
        WriteSlot(node.points, ev.snapPos);
      } else {
        Finish();
      }
    }

    /** `onMouseEvent`; the ray casts and the snap are the inputs `ev`. */
    method OnMouseEvent(ev: MouseInput) returns (consumed: bool)
      requires Valid() && node != null
      modifies this, viewer, node, node.points
      ensures node == old(node) && node.points == old(node.points)
      ensures (Abs(), consumed) == Session.Mouse(old(Abs()), ev)
      ensures Valid()
    {
      ShowPiece(ev);
      EditSlot(ev);
      node.Set(Ctrl, IntValue(if ev.ctrl then 1 else 0));
      consumed := false;
      if ev.lmb && ev.ctrl && ev.geoHit != -1 {
        // a failed removal is only reported on the console
        var removed := node.points.RemoveInstance(ev.geoHit);
        consumed := true;
      }
    }
  }
}
