/** The host application, abstracted: a node is a table of named parameter
    values plus the `points` multiparm, an ordered list of piece instances.
    Everything the host computes (snapping, ray casts, colour dialogs) is an
    input to the callbacks elsewhere; here are only the objects they edit. */
module Host {

  datatype Option<+T> = None | Some(value: T)

  /** A float tuple (position, colour). It is copied, never computed on. */
  type Tuple = seq<real>

  /** What `eval()` of a parameter yields: an integer or a tuple. */
  datatype Value = IntValue(n: int) | TupleValue(t: Tuple)

  /** One instance of the `points` multiparm: the parameters
      usept#, pt#, variant#, color#, rotate#, size#, pp# of one piece. */
  datatype Piece = Piece(usept: int, pt: Tuple, variant: Value, color: Tuple,
                         rotate: int, size: int, pp: int)

  /** A write to one parameter of an instance. */
  datatype Field =
    | Usept(n: int) | Pt(t: Tuple) | Variant(v: Value) | Color(t: Tuple)
    | Rotate(k: int) | Size(s: int) | Pp(q: int)

  function With(p: Piece, f: Field): (r: Piece)
  {
    match f
    case Usept(n) => p.(usept := n)
    case Pt(t) => p.(pt := t)
    case Variant(v) => p.(variant := v)
    case Color(t) => p.(color := t)
    case Rotate(k) => p.(rotate := k)
    case Size(s) => p.(size := s)
    case Pp(q) => p.(pp := q)
  }

  /** The names of the node's own parameters that the state and the node's
      scripts use (`parm("angles")` is `parms[Angles]`); any other name is
      `Other`. The instances of the `points` multiparm are not in this table. */
  datatype Name =
    | Angles | SizeVis | PpVis | Switch | Ctrl | RemovePts
    | ColorVis | MousePos | Sizex | Rcolor | Other(id: string)

  /** The values of the host's snapping-mode enumeration. */
  datatype SnappingMode = Off | Grid | Prim | Point | Multi

  predicate IsInt(p: map<Name, Value>, name: Name)
  {
    name in p && p[name].IntValue?
  }

  predicate IsTuple(p: map<Name, Value>, name: Name)
  {
    name in p && p[name].TupleValue?
  }

  /** The parameters of the node type that the viewer state reads and writes,
      each of the kind the state's code evaluates it as. */
  predicate StateTemplate(p: map<Name, Value>)
  {
    && IsInt(p, Angles) && IsInt(p, SizeVis) && IsInt(p, PpVis)
    && IsInt(p, Switch) && IsInt(p, Ctrl)
    && IsInt(p, RemovePts)
    && IsTuple(p, ColorVis) && IsTuple(p, MousePos)
  }

  /** The `points` multiparm. Each instance holds `perItem` parameters, and
      `multiParmInstancesCount()` counts parameters, so removing one instance
      lowers the count by `perItem`. */
  class Multiparm {
    var instances: seq<Piece>
    const perItem: nat
    /** The default values a newly inserted instance takes. */
    const blank: Piece

    constructor (perItem: nat, blank: Piece)
      ensures instances == [] && this.perItem == perItem && this.blank == blank
    {
      instances := [];
      this.perItem := perItem;
      this.blank := blank;
    }

    /** `multiParmInstancesCount()`: with at least one parameter per
        instance, the count is below that number exactly when no instance
        is left. */
    function Count(): (count: nat)
      reads this
      ensures perItem > 0 ==> (count < perItem <==> instances == [])
    {
      |instances| * perItem
    }

    /** `insertMultiParmInstance(i)`: a blank instance before position i. */
    method InsertInstance(i: nat)
      requires i <= |instances|
      modifies this
      ensures instances == old(instances)[..i] + [blank] + old(instances)[i..]
    {
      instances := instances[..i] + [blank] + instances[i..];
    }

    /** `removeMultiParmInstance(i)`; an index that names no instance raises,
        which `ok == false` stands for. */
    method RemoveInstance(i: int) returns (ok: bool)
      modifies this
      ensures ok == (0 <= i < |old(instances)|)
      ensures ok ==> instances == old(instances)[..i] + old(instances)[i + 1..]
      ensures !ok ==> instances == old(instances)
    {
      ok := 0 <= i < |instances|;
      if ok {
        instances := instances[..i] + instances[i + 1..];
      }
    }

    /** `parm(f"<field>{i}").set(...)` on an existing instance. */
    method SetField(i: nat, f: Field)
      requires i < |instances|
      modifies this
      ensures instances == old(instances)[i := With(old(instances)[i], f)]
    {
      instances := instances[i := With(instances[i], f)];
    }
  }

  /** A node: its parameter table and its `points` multiparm (null when the
      node has no such parameter). */
  class Node {
    var parms: map<Name, Value>
    var points: Multiparm?

    constructor (parms: map<Name, Value>, points: Multiparm?)
      ensures this.parms == parms && this.points == points
    {
      this.parms := parms;
      this.points := points;
    }

    /** `parm(name).set(v)` on an existing parameter. */
    method Set(name: Name, v: Value)
      requires name in parms
      modifies this
      ensures parms == old(parms)[name := v] && points == old(points)
    {
      parms := parms[name := v];
    }
  }

  /** The scene viewer: its snapping mode and the number of state undo
      groups begun and not yet ended. */
  class SceneViewer {
    var depth: int
    var snapping: SnappingMode

    constructor (snapping: SnappingMode)
      ensures depth == 0 && this.snapping == snapping
    {
      depth := 0;
      this.snapping := snapping;
    }

    method BeginStateUndo()
      modifies this
      ensures depth == old(depth) + 1 && snapping == old(snapping)
    {
      depth := depth + 1;
    }

    method EndStateUndo()
      modifies this
      ensures depth == old(depth) - 1 && snapping == old(snapping)
    {
      depth := depth - 1;
    }

    method SetSnappingMode(mode: SnappingMode)
      modifies this
      ensures snapping == mode && depth == old(depth)
    {
      snapping := mode;
    }
  }

  /** The network a node lives in: which nodes are selected and which one
      carries the render flag and the display flag (each flag is held by one
      node at a time). */
  class Network {
    var selection: set<Node>
    var render: Node?
    var display: Node?

    constructor ()
      ensures selection == {} && render == null && display == null
    {
      selection := {};
      render := null;
      display := null;
    }

    /** `n.setSelected(1, clear_all_selected=True)` */
    method SelectOnly(n: Node)
      modifies this
      ensures selection == {n} && render == old(render) && display == old(display)
    {
      selection := {n};
    }

    /** `n.setRenderFlag(1)` */
    method SetRenderFlag(n: Node)
      modifies this
      ensures render == n && selection == old(selection) && display == old(display)
    {
      render := n;
    }

    /** `n.setDisplayFlag(1)` */
    method SetDisplayFlag(n: Node)
      modifies this
      ensures display == n && selection == old(selection) && render == old(render)
    {
      display := n;
    }
  }
}
