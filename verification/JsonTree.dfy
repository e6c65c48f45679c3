/** A JSON value as a tree of nodes (internal/txquery/jsonnode.go): objects
    become elements named for their keys, arrays elements named "_", scalars
    text. */
module JsonTree {

  /** A decoded JSON value; a number is given by its decimal text. An object's
      fields stand in the order they are visited. */
  datatype Json =
    | Null
    | Bool(b: bool)
    | Number(text: string)
    | Str(s: string)
    | Arr(elems: seq<Json>)
    | Obj(fields: seq<Field>)

  datatype Field = Field(key: string, value: Json)

  datatype Node = Element(tag: string, children: seq<Node>) | TextNode(data: string)

  const ITEM_TAG := "_"

  /** The nodes a value contributes to its parent. */
  function Children(v: Json): (r: seq<Node>)
    ensures v.Arr? ==> |r| == |v.elems|
    ensures v.Obj? ==> |r| == |v.fields|
  {
    match v
    case Obj(fields) => seq(|fields|, i requires 0 <= i < |fields| => Element(fields[i].key, Children(fields[i].value)))
    case Arr(elems) => seq(|elems|, i requires 0 <= i < |elems| => Element(ITEM_TAG, Children(elems[i])))
    case Null => [TextNode("null")]
    case Str(s) => [TextNode(s)]
    case Bool(b) => [TextNode(if b then "true" else "false")]
    case Number(text) => [TextNode(text)]
  }

  // -------------------------------------------------------- what text tells

  /** The text of nodes: all the text in them, in order (section 5.2 of XPath
      1.0 for an element). */
  function TextIn(nodes: seq<Node>): string {
    if nodes == [] then ""
    else TextIn(nodes[..|nodes| - 1]) + TextOf(nodes[|nodes| - 1])
  }

  function TextOf(node: Node): string {
    match node
    case TextNode(data) => data
    case Element(_, children) => TextIn(children)
  }

  predicate Scalar(v: Json) { !v.Arr? && !v.Obj? }

  /** The text a value is read as. */
  function Rendered(v: Json): string {
    match v
    case Null => "null"
    case Bool(true) => "true"
    case Bool(false) => "false"
    case Number(text) => text
    case Str(s) => s
    case Arr(elems) => RenderedEach(elems)
    case Obj(fields) => RenderedFields(fields)
  }

  function RenderedEach(vs: seq<Json>): string {
    if vs == [] then "" else RenderedEach(vs[..|vs| - 1]) + Rendered(vs[|vs| - 1])
  }

  function RenderedFields(fields: seq<Field>): string {
    if fields == [] then ""
    else RenderedFields(fields[..|fields| - 1]) + Rendered(fields[|fields| - 1].value)
  }

  lemma {:induction false} TextOfElems(elems: seq<Json>)
    requires forall i :: 0 <= i < |elems| ==> TextIn(Children(elems[i])) == Rendered(elems[i])
    ensures TextIn(Children(Arr(elems))) == RenderedEach(elems)
    decreases |elems|
  {
    if elems != [] {
      var n := |elems| - 1;
      TextOfElems(elems[..n]);
      assert Children(Arr(elems))[..n] == Children(Arr(elems[..n]));
    }
  }

  lemma {:induction false} TextOfFields(fields: seq<Field>)
    requires forall i :: 0 <= i < |fields| ==> TextIn(Children(fields[i].value)) == Rendered(fields[i].value)
    ensures TextIn(Children(Obj(fields))) == RenderedFields(fields)
    decreases |fields|
  {
    if fields != [] {
      var n := |fields| - 1;
      TextOfFields(fields[..n]);
      assert Children(Obj(fields))[..n] == Children(Obj(fields[..n]));
    }
  }

  /** The text of an element over a value's tree: a boolean's is "true" or
      "false", null's "null", a string's and a number's their own, and an
      array's or object's that of its members, one after the other. */
  lemma {:induction false} TextOfTree(tag: string, v: Json)
    ensures TextOf(Element(tag, Children(v))) == Rendered(v)
    ensures v == Null ==> TextOf(Element(tag, Children(v))) == "null"
    ensures v.Bool? ==> TextOf(Element(tag, Children(v))) == if v.b then "true" else "false"
    ensures v.Str? ==> TextOf(Element(tag, Children(v))) == v.s
    ensures v.Number? ==> TextOf(Element(tag, Children(v))) == v.text
    decreases v
  {
    match v
    case Arr(elems) =>
      forall i | 0 <= i < |elems| ensures TextIn(Children(elems[i])) == Rendered(elems[i]) {
        TextOfTree(tag, elems[i]);
      }
      TextOfElems(elems);
    case Obj(fields) =>
      forall i | 0 <= i < |fields| ensures TextIn(Children(fields[i].value)) == Rendered(fields[i].value) {
        TextOfTree(tag, fields[i].value);
      }
      TextOfFields(fields);
    case _ =>
      var nodes := Children(v);
      assert nodes[..0] == [] && |nodes| == 1 && TextIn(nodes) == "" + TextOf(nodes[0]);
  }

  /** How many members an array or object has, what they are named, and what
      they are; an array's members go by the name "_". */
  function Width(v: Json): nat
    requires !Scalar(v)
  {
    if v.Arr? then |v.elems| else |v.fields|
  }

  function NameAt(v: Json, i: nat): string
    requires !Scalar(v) && i < Width(v)
  {
    if v.Arr? then "_" else v.fields[i].key
  }

  function PartAt(v: Json, i: nat): (r: Json)
    requires !Scalar(v) && i < Width(v)
    ensures r < v
  {
    if v.Arr? then v.elems[i] else v.fields[i].value
  }

  /** Values a reader of names and texts cannot tell apart: scalars of the same
      text, or members of the same names, alike one for one. */
  predicate Alike(v: Json, w: Json)
    decreases v
  {
    if Scalar(v) || Scalar(w) then Scalar(v) && Scalar(w) && Rendered(v) == Rendered(w)
    else
      && Width(v) == Width(w)
      && forall i :: 0 <= i < Width(v) ==> NameAt(v, i) == NameAt(w, i) && Alike(PartAt(v, i), PartAt(w, i))
  }

  lemma ChildAt(v: Json, i: nat)
    requires !Scalar(v) && i < Width(v)
    ensures |Children(v)| == Width(v) && Children(v)[i] == Element(NameAt(v, i), Children(PartAt(v, i)))
  {
  }

  /** The tree tells values apart exactly as far as names and texts do. */
  lemma {:induction false} TreeTells(v: Json, w: Json)
    ensures Children(v) == Children(w) <==> Alike(v, w)
    decreases v
  {
    if !Scalar(v) && !Scalar(w) {
      if Width(v) == Width(w) {
        forall i | 0 <= i < Width(v)
          ensures Children(v)[i] == Children(w)[i] <==>
                  NameAt(v, i) == NameAt(w, i) && Alike(PartAt(v, i), PartAt(w, i))
        {
          ChildAt(v, i);
          ChildAt(w, i);
          TreeTells(PartAt(v, i), PartAt(w, i));
        }
        hide Alike;
        AlikeParts(v, w);
        SameParts(v, w);
      }
    } else {
      ScalarTree(v);
      ScalarTree(w);
    }
  }

  lemma AlikeParts(v: Json, w: Json)
    requires !Scalar(v) && !Scalar(w) && Width(v) == Width(w)
    ensures Alike(v, w) <==>
              forall i :: 0 <= i < Width(v) ==> NameAt(v, i) == NameAt(w, i) && Alike(PartAt(v, i), PartAt(w, i))
  {
  }

  lemma SameParts(v: Json, w: Json)
    requires !Scalar(v) && !Scalar(w) && Width(v) == Width(w)
    ensures |Children(v)| == |Children(w)| == Width(v)
    ensures Children(v) == Children(w) <==> forall i :: 0 <= i < Width(v) ==> Children(v)[i] == Children(w)[i]
  {
  }

  lemma ScalarTree(v: Json)
    ensures Scalar(v) ==> Children(v) == [TextNode(Rendered(v))]
    ensures !Scalar(v) ==> |Children(v)| == Width(v) && (Width(v) > 0 ==> Children(v)[0].Element?)
  {
  }

  /** A node as the program builds it, children appended in place. */
  class HtmlNode {
    const isText: bool
    const data: string
    var children: seq<HtmlNode>
    ghost var Repr: set<object>

    ghost predicate Valid()
      reads this, Repr
      decreases Repr
    {
      && this in Repr
      && (forall i :: 0 <= i < |children| ==>
            && children[i] in Repr && children[i].Repr <= Repr && this !in children[i].Repr
            && children[i].Valid())
      && (forall i, j :: 0 <= i < j < |children| ==> children[i].Repr !! children[j].Repr)
    }

    ghost function Views(): (r: seq<Node>)
      requires Valid()
      reads this, Repr
      ensures |r| == |children| && forall i :: 0 <= i < |children| ==> r[i] == children[i].View()
      decreases Repr, 0
    {
      seq(|children|, i requires 0 <= i < |children| && Valid() reads this, Repr => children[i].View())
    }

    ghost function View(): Node
      requires Valid()
      reads this, Repr
      decreases Repr, 1
    {
      if isText then TextNode(data) else Element(data, Views())
    }

    constructor (isText: bool, data: string)
      ensures Valid() && fresh(Repr) && Repr == {this}
      ensures this.isText == isText && this.data == data && children == []
    {
      this.isText, this.data := isText, data;
      children := [];
      Repr := {this};
    }

    method AppendChild(el: HtmlNode)
      requires Valid() && el.Valid() && Repr !! el.Repr
      modifies this
      ensures Valid() && children == old(children) + [el] && Repr == old(Repr) + el.Repr
      ensures Views() == old(Views()) + [el.View()]
    {
      children := children + [el];
      Repr := Repr + el.Repr;
    }

    /** Covers what the last child has grown by. */
    ghost method Cover(views: seq<Node>)
      requires this in Repr && children != [] && |views| == |children|
      requires forall i :: 0 <= i < |children| ==>
                 children[i].Valid() && this !in children[i].Repr && children[i].View() == views[i]
      requires forall i :: 0 <= i < |children| - 1 ==> children[i] in Repr && children[i].Repr <= Repr
      requires forall i, j :: 0 <= i < j < |children| ==> children[i].Repr !! children[j].Repr
      modifies this`Repr
      ensures Valid() && Repr == old(Repr) + children[|children| - 1].Repr
      ensures Views() == views
    {
      Repr := Repr + children[|children| - 1].Repr;
    }
  }

  /** Appends a new, empty element. */
  method NewElement(parent: HtmlNode, tag: string) returns (el: HtmlNode)
    requires parent.Valid()
    modifies parent
    ensures parent.Valid() && parent.Repr == old(parent.Repr) + {el} && fresh(el)
    ensures el.Valid() && el.Repr == {el} && !el.isText && el.data == tag && el.Views() == []
    ensures parent.children == old(parent.children) + [el]
    ensures forall i :: 0 <= i < |old(parent.children)| ==>
              el !in parent.children[i].Repr && parent.children[i].View() == old(parent.Views())[i]
  {
    el := new HtmlNode(false, tag);
    parent.AppendChild(el);
  }

  /** Adds an element with a value's nodes in it. */
  method AppendElement(parent: HtmlNode, tag: string, v: Json)
    requires parent.Valid()
    modifies parent
    ensures parent.Valid() && fresh(parent.Repr - old(parent.Repr))
    ensures parent.Views() == old(parent.Views()) + [Element(tag, Children(v))]
    decreases v, 2
  {
    hide Children;
    ghost var before := parent.Views();
    var el := NewElement(parent, tag);
    AppendValue(el, v);
    assert el.View() == Element(tag, Children(v));
    parent.Cover(before + [Element(tag, Children(v))]);
  }

  /** `appendValue`: adds a value's nodes to a node. */
  method AppendValue(parent: HtmlNode, v: Json)
    requires parent.Valid()
    modifies parent
    ensures parent.Valid() && fresh(parent.Repr - old(parent.Repr))
    ensures parent.Views() == old(parent.Views()) + Children(v)
    decreases v, 1
  {
    if v.Obj? || v.Arr? {
      var n := if v.Obj? then |v.fields| else |v.elems|;
      for i := 0 to n
        invariant parent.Valid() && fresh(parent.Repr - old(parent.Repr))
        invariant parent.Views() == old(parent.Views()) + Children(v)[..i]
      {
        if v.Obj? {
          AppendElement(parent, v.fields[i].key, v.fields[i].value);
        } else {
          AppendElement(parent, ITEM_TAG, v.elems[i]);
        }
        assert Children(v)[..i + 1] == Children(v)[..i] + [Children(v)[i]];
      }
      assert Children(v)[..n] == Children(v);
      return;
    }
    var text :=
      match v
      case Null => "null"
      case Str(s) => s
      case Bool(b) => if b then "true" else "false"
      case Number(text) => text
      case _ => "";
    var el := new HtmlNode(true, text);
    parent.AppendChild(el);
  }

  /** `BuildJSONTree`: a document node over a value's nodes. */
  method BuildJSONTree(v: Json) returns (root: HtmlNode)
    ensures root.Valid() && fresh(root.Repr) && root.View() == Element("", Children(v))
  {
    root := new HtmlNode(false, "");
    AppendValue(root, v);
  }
}
