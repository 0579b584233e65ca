/** The node's script module python_module.py: `clear`, which deletes every
    piece, and `add_node`, which appends a new node of the same type with
    seven of its parameters copied. The node the script runs on (`hou.pwd()`)
    is a parameter. */
module PythonModule {
  import opened Host

  /** `clear`: removes instance 0 of `points` and re-reads the instance count
      until the count drops below the number of parameters per instance.
      `removed` counts the removals. */
  method Clear(node: Node) returns (ghost removed: nat)
    requires node.points != null && node.points.perItem > 0
    modifies node.points
    ensures node.points.instances == []
    ensures node.points.Count() < node.points.perItem
    ensures removed == |old(node.points.instances)|
    ensures old(node.points.Count()) < node.points.perItem ==> removed == 0
  {
    var m := node.points;
    var mi := m.perItem;
    var mc := m.Count();
    removed := 0;
    while mc >= mi
      invariant mc == m.Count()
      invariant removed <= |old(m.instances)|
      invariant m.instances == old(m.instances)[removed..]
      decreases |m.instances|
    {
      var ok := m.RemoveInstance(0);
      assert ok;
      removed := removed + 1;
      mc := m.Count();
    }
  }

  /** The parameters `add_node` copies to the new node. */
  predicate Copied(n: Name)
  {
    n == ColorVis || n == SizeVis || n == Angles || n == PpVis || n == Switch || n == Sizex || n == Rcolor
  }

  /** The node has every parameter `add_node` copies. */
  predicate HasCopied(p: map<Name, Value>)
  {
    && ColorVis in p && SizeVis in p && Angles in p && PpVis in p
    && Switch in p && Sizex in p && Rcolor in p
  }

  /** The parameter table of the new node after the seven copies from `src`,
      in the order `add_node` makes them. */
  function CopyInto(dst: map<Name, Value>, src: map<Name, Value>): (r: map<Name, Value>)
    requires HasCopied(src) && HasCopied(dst)
    ensures r.Keys == dst.Keys
    ensures forall n :: Copied(n) ==> r[n] == src[n]
    ensures forall n :: n in dst && !Copied(n) ==> r[n] == dst[n]
  {
    dst[ColorVis := src[ColorVis]][SizeVis := src[SizeVis]][Angles := src[Angles]]
       [PpVis := src[PpVis]][Switch := src[Switch]][Sizex := src[Sizex]][Rcolor := src[Rcolor]]
  }

  /** `add_node`: creates a node of the same type below `src` (with the
      type's default parameters `defaults` and an empty `points` multiparm of
      `perItem` parameters per instance and defaults `blank`), copies the
      seven `Copied` parameters from `src` and makes the new node the only
      selected one and the one with the render and display flags. */
  method AddNode(net: Network, src: Node, defaults: map<Name, Value>, perItem: nat, blank: Piece)
    returns (dst: Node)
    requires HasCopied(src.parms) && HasCopied(defaults)
    modifies net
    ensures fresh(dst) && dst.points != null && fresh(dst.points)
    ensures dst.points.instances == [] && dst.points.perItem == perItem && dst.points.blank == blank
    ensures dst.parms == CopyInto(defaults, src.parms)
    ensures unchanged(src)
    ensures net.selection == {dst} && net.render == dst && net.display == dst
  {
    var points := new Multiparm(perItem, blank);
    dst := new Node(defaults, points);
    dst.Set(ColorVis, src.parms[ColorVis]);
    dst.Set(SizeVis, src.parms[SizeVis]);
    dst.Set(Angles, src.parms[Angles]);
    dst.Set(PpVis, src.parms[PpVis]);
    dst.Set(Switch, src.parms[Switch]);
    dst.Set(Sizex, src.parms[Sizex]);
    dst.Set(Rcolor, src.parms[Rcolor]);
    net.SelectOnly(dst);
    net.SetRenderFlag(dst);
    net.SetDisplayFlag(dst);
  }
}
