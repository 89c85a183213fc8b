/** Marshalling of menu layouts: an item is a structure of its id, its properties and an array of
    variants, each holding a child (D-Bus signature `(ia{sv}av)`, D-Bus Specification, "Type System").

    A message is a flat sequence of tokens; the argument a child is read from is the stretch of it
    between the brackets of the child's variant. */
module LayoutCodec {
  import opened Collections

  newtype Int32 = x: int | -0x8000_0000 <= x < 0x8000_0000

  type Properties(==)

  datatype Token =
    | BeginStructure | EndStructure
    | BeginArray | EndArray
    | BeginVariant | EndVariant
    | Number(id: Int32)
    | Dictionary(properties: Properties)

  datatype Item = Item(id: Int32, properties: Properties, children: seq<Item>)

  // ---------- writing ----------

  function Encode(item: Item): seq<Token>
    decreases item
  {
    [BeginStructure, Number(item.id), Dictionary(item.properties), BeginArray]
    + EncodeAll(item.children)
    + [EndArray, EndStructure]
  }

  function EncodeAll(items: seq<Item>): seq<Token>
    decreases items
  {
    if items == [] then []
    else [BeginVariant] + Encode(items[0]) + [EndVariant] + EncodeAll(items[1..])
  }

  // ---------- reading ----------

  /** Reads an item whose target holds `already` as children, from the front of `s`; what was read
      is appended to them. */
  function Decode(already: seq<Item>, s: seq<Token>): (r: Option<(Item, seq<Token>)>)
    ensures r.Some? ==> |r.value.1| < |s|
    decreases |s|
  {
    if |s| >= 4 && s[0].BeginStructure? && s[1].Number? && s[2].Dictionary? && s[3].BeginArray? then
      var r := DecodeAll(already, s[4..]);
      if r.Some? && |r.value.1| >= 2 && r.value.1[0].EndArray? && r.value.1[1].EndStructure? then
        Some((Item(s[1].id, s[2].properties, r.value.0), r.value.1[2..]))
      else None
    else None
  }

  function DecodeAll(already: seq<Item>, s: seq<Token>): (r: Option<(seq<Item>, seq<Token>)>)
    ensures r.Some? ==> |r.value.1| <= |s|
    decreases |s|
  {
    if s == [] then None
    else if s[0].EndArray? then Some((already, s))
    else if !s[0].BeginVariant? then None
    else
      var r := Decode([], s[1..]);
      if r.Some? && r.value.1 != [] && r.value.1[0].EndVariant? then
        DecodeAll(already + [r.value.0], r.value.1[1..])
      else None
  }

  // ---------- round trips ----------

  lemma Assoc<T>(a: seq<T>, b: seq<T>, c: seq<T>)
    ensures (a + b) + c == a + (b + c)
  {
  }

  lemma Regroup(a: seq<Token>, b: seq<Token>, c: seq<Token>, d: seq<Token>)
    ensures ((a + b) + c) + d == a + (b + (c + d))
  {
    Assoc(a + b, c, d);
    Assoc(a, b, c + d);
  }

  function Head(id: Int32, properties: Properties): seq<Token> {
    [BeginStructure, Number(id), Dictionary(properties), BeginArray]
  }

  /** The encoding of an item and of its children, token by token from the front. */
  lemma EncodeFromFront(item: Item, rest: seq<Token>)
    ensures Encode(item) + rest
         == Head(item.id, item.properties) + (EncodeAll(item.children) + ([EndArray, EndStructure] + rest))
  {
    hide EncodeAll;
    Regroup(Head(item.id, item.properties), EncodeAll(item.children), [EndArray, EndStructure], rest);
  }

  lemma EncodeAllFromFront(item: Item, items: seq<Item>, rest: seq<Token>)
    ensures EncodeAll([item] + items) + rest
         == [BeginVariant] + (Encode(item) + ([EndVariant] + (EncodeAll(items) + rest)))
  {
    assert ([item] + items)[1..] == items;
    hide Encode;
    var first, others := Encode(item), EncodeAll(items);
    Regroup([BeginVariant] + first, [EndVariant], others, rest);
    Assoc([BeginVariant], first, [EndVariant] + (others + rest));
  }

  lemma {:induction false} DecodeOfEncode(already: seq<Item>, item: Item, rest: seq<Token>)
    ensures Decode(already, Encode(item) + rest) == Some((item.(children := already + item.children), rest))
    decreases item
  {
    hide Encode, EncodeAll, DecodeAll;
    var s, tail := Encode(item) + rest, [EndArray, EndStructure] + rest;
    EncodeFromFront(item, rest);
    assert s[4..] == EncodeAll(item.children) + tail && tail[2..] == rest;
    DecodeAllOfEncodeAll(already, item.children, tail);
  }

  lemma {:induction false} DecodeAllOfEncodeAll(already: seq<Item>, items: seq<Item>, tail: seq<Token>)
    requires tail != [] && tail[0].EndArray?
    ensures DecodeAll(already, EncodeAll(items) + tail) == Some((already + items, tail))
    decreases items
  {
    if items == [] {
      assert EncodeAll(items) + tail == tail && already + items == already;
    } else {
      hide Encode, EncodeAll, Decode, DecodeAll;
      var rest := EncodeAll(items[1..]) + tail;
      assert items == [items[0]] + items[1..];
      EncodeAllFromFront(items[0], items[1..], tail);
      DecodeOfEncode([], items[0], [EndVariant] + rest);
      DecodeChild(already, items[0], rest);
      DecodeAllOfEncodeAll(already + [items[0]], items[1..], tail);
      Assoc(already, [items[0]], items[1..]);
      assert [items[0]] + items[1..] == items;
    }
  }

  lemma DecodeChild(already: seq<Item>, item: Item, rest: seq<Token>)
    requires Decode([], Encode(item) + ([EndVariant] + rest))
          == Some((item.(children := [] + item.children), [EndVariant] + rest))
    ensures DecodeAll(already, [BeginVariant] + (Encode(item) + ([EndVariant] + rest))) == DecodeAll(already + [item], rest)
  {
    hide Encode, Decode;
    var s := [BeginVariant] + (Encode(item) + ([EndVariant] + rest));
    assert s[1..] == Encode(item) + ([EndVariant] + rest);
    assert [] + item.children == item.children && ([EndVariant] + rest)[1..] == rest;
  }

  /** Whatever is read is the encoding of an item, with nothing left over and nothing skipped. */
  lemma {:induction false} EncodeOfDecode(already: seq<Item>, s: seq<Token>)
    requires Decode(already, s).Some?
    ensures var (item, rest) := Decode(already, s).value;
            && already <= item.children
            && s == Encode(item.(children := item.children[|already|..])) + rest
    decreases |s|, 0
  {
    hide Encode, EncodeAll, DecodeAll;
    var (item, rest) := Decode(already, s).value;
    var (children, tail) := DecodeAll(already, s[4..]).value;
    EncodeAllOfDecodeAll(already, s[4..]);
    EncodeFromFront(item.(children := children[|already|..]), rest);
    assert s == Head(item.id, item.properties) + s[4..] && tail == [EndArray, EndStructure] + rest;
  }

  lemma {:induction false} EncodeAllOfDecodeAll(already: seq<Item>, s: seq<Token>)
    requires DecodeAll(already, s).Some?
    ensures var (items, rest) := DecodeAll(already, s).value;
            && already <= items
            && s == EncodeAll(items[|already|..]) + rest
    decreases |s|
  {
    if !s[0].EndArray? {
      var (item, tail) := Decode([], s[1..]).value;
      var (items, rest) := DecodeAll(already, s).value;
      EncodeOfDecode([], s[1..]);
      EncodeAllOfDecodeAll(already + [item], tail[1..]);
      hide Encode, EncodeAll, Decode, DecodeAll;
      assert item.children[0..] == item.children;
      OneMoreRead(already, item, items);
      EncodeAllFromFront(item, items[|already| + 1..], rest);
      assert s == [BeginVariant] + s[1..] && tail == [EndVariant] + tail[1..];
    }
  }

  lemma OneMoreRead(already: seq<Item>, item: Item, items: seq<Item>)
    requires already + [item] <= items
    ensures already <= items && items[|already|..] == [item] + items[|already| + 1..]
  {
    assert items[|already|] == (already + [item])[|already|];
    assert items[..|already|] == (already + [item])[..|already|];
  }

  /** Reading yields an item, and leaves `rest`, exactly when the message starts with that item's
      encoding and `rest` is what follows: for every tree of any depth and width. */
  lemma ReadsExactly(item: Item, s: seq<Token>, rest: seq<Token>)
    ensures Decode([], s) == Some((item, rest)) <==> s == Encode(item) + rest
  {
    DecodeOfEncode([], item, rest);
    assert [] + item.children == item.children;
    if Decode([], s) == Some((item, rest)) {
      EncodeOfDecode([], s);
      assert item.children[0..] == item.children;
    }
  }

  /** Reading into an item gives back the one that was written exactly when its target had no children. */
  lemma TargetMustBeFresh(already: seq<Item>, item: Item, rest: seq<Token>)
    ensures Decode(already, Encode(item) + rest) == Some((item, rest)) <==> already == []
  {
    DecodeOfEncode(already, item, rest);
    if already == [] {
      assert already + item.children == item.children;
    } else {
      assert |already + item.children| > |item.children|;
    }
  }

  // ---------- the signature ----------

  // A D-Bus type: `i`, `a{sv}`, `a` with its element type, `v`, or a structure in brackets.
  datatype Type = Int | Dict | Array(element: Type) | Variant | Structure(fields: seq<Type>)

  // `(ia{sv}av)`
  const SIGNATURE := Structure([Int, Dict, Array(Variant)])

  /** What follows a value of type `t` at the front of a message, if there is one; a variant holds a
      layout item again. */
  function Skip(s: seq<Token>, t: Type): (r: Option<seq<Token>>)
    ensures r.Some? ==> |r.value| < |s|
    decreases |s|, 0
  {
    if s == [] then None
    else
      match t
      case Int => if s[0].Number? then Some(s[1..]) else None
      case Dict => if s[0].Dictionary? then Some(s[1..]) else None
      case Array(element) => if s[0].BeginArray? then SkipElements(s[1..], element) else None
      case Variant =>
        var r := if s[0].BeginVariant? then Skip(s[1..], SIGNATURE) else None;
        if r.Some? && r.value != [] && r.value[0].EndVariant? then Some(r.value[1..]) else None
      case Structure(fields) =>
        var r := if s[0].BeginStructure? then SkipFields(s[1..], fields) else None;
        if r.Some? && r.value != [] && r.value[0].EndStructure? then Some(r.value[1..]) else None
  }

  function SkipElements(s: seq<Token>, element: Type): (r: Option<seq<Token>>)
    ensures r.Some? ==> |r.value| < |s|
    decreases |s|, 1
  {
    if s == [] then None
    else if s[0].EndArray? then Some(s[1..])
    else
      var r := Skip(s, element);
      if r.None? then None else SkipElements(r.value, element)
  }

  function SkipFields(s: seq<Token>, fields: seq<Type>): (r: Option<seq<Token>>)
    ensures r.Some? ==> |r.value| <= |s|
    decreases |s|, 1
  {
    if fields == [] then Some(s)
    else
      var r := Skip(s, fields[0]);
      if r.None? then None else SkipFields(r.value, fields[1..])
  }

  /** A structure of the signature, field by field. */
  lemma SkipItem(id: Int32, properties: Properties, s: seq<Token>, rest: seq<Token>)
    requires SkipElements(s, Variant) == Some([EndStructure] + rest)
    ensures Skip([BeginStructure, Number(id), Dictionary(properties), BeginArray] + s, SIGNATURE) == Some(rest)
  {
    var all := [BeginStructure, Number(id), Dictionary(properties), BeginArray] + s;
    var fields := [Int, Dict, Array(Variant)];
    assert fields[1..] == [Dict, Array(Variant)] && fields[2..] == [Array(Variant)] && fields[3..] == [];
    assert all[4..] == s && ([EndStructure] + rest)[1..] == rest;
    assert Skip(all[3..], Array(Variant)) == Some([EndStructure] + rest);
    assert SkipFields(all[3..], fields[2..]) == Some([EndStructure] + rest);
    assert SkipFields(all[2..], fields[1..]) == Some([EndStructure] + rest);
    assert SkipFields(all[1..], fields) == Some([EndStructure] + rest);
  }

  /** What is written is one value of the signature, whatever follows it. */
  lemma {:induction false} EncodingHasSignature(item: Item, rest: seq<Token>)
    ensures Skip(Encode(item) + rest, SIGNATURE) == Some(rest)
    decreases item
  {
    hide Encode, EncodeAll, Skip, SkipElements;
    EncodeFromFront(item, rest);
    var tail := [EndArray, EndStructure] + rest;
    EncodingsFillArray(item.children, tail);
    assert tail[1..] == [EndStructure] + rest;
    SkipItem(item.id, item.properties, EncodeAll(item.children) + tail, rest);
  }

  lemma {:induction false} EncodingsFillArray(items: seq<Item>, tail: seq<Token>)
    requires tail != [] && tail[0].EndArray?
    ensures SkipElements(EncodeAll(items) + tail, Variant) == Some(tail[1..])
    decreases items
  {
    if items == [] {
      assert EncodeAll(items) + tail == tail;
    } else {
      hide Encode, EncodeAll, SkipElements;
      var rest := EncodeAll(items[1..]) + tail;
      assert items == [items[0]] + items[1..];
      EncodeAllFromFront(items[0], items[1..], tail);
      EncodingHasSignature(items[0], [EndVariant] + rest);
      SkipVariant(Encode(items[0]), rest);
      EncodingsFillArray(items[1..], tail);
    }
  }

  lemma SkipVariant(encoding: seq<Token>, rest: seq<Token>)
    requires Skip(encoding + ([EndVariant] + rest), SIGNATURE) == Some([EndVariant] + rest)
    ensures SkipElements([BeginVariant] + (encoding + ([EndVariant] + rest)), Variant) == SkipElements(rest, Variant)
  {
    var s := [BeginVariant] + (encoding + ([EndVariant] + rest));
    assert s[1..] == encoding + ([EndVariant] + rest) && ([EndVariant] + rest)[1..] == rest;
    assert Skip(s, Variant) == Some(rest);
  }

  /** The ids of an item and of everything below it, parents first. */
  function Preorder(item: Item): seq<Int32>
    decreases item
  {
    [item.id] + PreorderAll(item.children)
  }

  function PreorderAll(items: seq<Item>): seq<Int32>
    decreases items
  {
    if items == [] then [] else Preorder(items[0]) + PreorderAll(items[1..])
  }

  function Numbers(s: seq<Token>): seq<Int32> {
    if s == [] then [] else (if s[0].Number? then [s[0].id] else []) + Numbers(s[1..])
  }

  lemma NumbersFirst(s: seq<Token>)
    requires s != []
    ensures Numbers(s) == Numbers([s[0]]) + Numbers(s[1..])
  {
    assert [s[0]][1..] == [];
  }

  lemma {:induction false} NumbersConcat(a: seq<Token>, b: seq<Token>)
    ensures Numbers(a + b) == Numbers(a) + Numbers(b)
  {
    if a == [] {
      assert a + b == b;
    } else {
      NumbersConcat(a[1..], b);
      NumbersFirst(a);
      NumbersFirst(a + b);
      hide Numbers;
      assert (a + b)[0] == a[0] && (a + b)[1..] == a[1..] + b;
      Assoc(Numbers([a[0]]), Numbers(a[1..]), Numbers(b));
    }
  }

  lemma NumbersOfBrackets(id: Int32, properties: Properties)
    ensures Numbers(Head(id, properties)) == [id]
    ensures Numbers([BeginVariant]) == [] && Numbers([EndVariant]) == [] && Numbers([EndArray, EndStructure]) == []
  {
    assert [BeginVariant][1..] == [] && [EndVariant][1..] == [] && [EndArray, EndStructure][1..] == [EndStructure];
    assert [EndStructure][1..] == [] && [BeginArray][1..] == [];
    assert Numbers([BeginArray]) == [] && Numbers([EndStructure]) == [];
    var h1: seq<Token>, h2: seq<Token> := [Dictionary(properties), BeginArray], [Number(id), Dictionary(properties), BeginArray];
    assert h1[1..] == [BeginArray] && h2[1..] == h1 && Head(id, properties)[1..] == h2;
    assert Numbers(h1) == [] && Numbers(h2) == [id];
  }

  /** The ids are written parents first and children in their order. */
  lemma {:induction false} WrittenInPreorder(item: Item)
    ensures Numbers(Encode(item)) == Preorder(item)
    decreases item
  {
    hide Encode, EncodeAll, Numbers, Head;
    var closing: seq<Token> := [EndArray, EndStructure];
    EncodeFromFront(item, []);
    assert Encode(item) + [] == Encode(item) && closing + [] == closing;
    NumbersOfBrackets(item.id, item.properties);
    AllWrittenInPreorder(item.children);
    NumbersConcat(EncodeAll(item.children), closing);
    NumbersConcat(Head(item.id, item.properties), EncodeAll(item.children) + closing);
  }

  lemma {:induction false} AllWrittenInPreorder(items: seq<Item>)
    ensures Numbers(EncodeAll(items)) == PreorderAll(items)
    decreases items
  {
    if items != [] {
      hide Encode, EncodeAll, Numbers;
      var first, others := Encode(items[0]), EncodeAll(items[1..]);
      assert items == [items[0]] + items[1..];
      EncodeAllFromFront(items[0], items[1..], []);
      assert EncodeAll(items) + [] == EncodeAll(items) && others + [] == others;
      WrittenInPreorder(items[0]);
      AllWrittenInPreorder(items[1..]);
      NumbersOfBrackets(items[0].id, items[0].properties);
      NumbersConcat([EndVariant], others);
      NumbersConcat(first, [EndVariant] + others);
      NumbersConcat([BeginVariant], first + ([EndVariant] + others));
    }
  }

  // ---------- the operators over an argument stream ----------

  class Argument {
    var tokens: seq<Token>
    var pos: nat

    constructor (tokens: seq<Token>)
      ensures Valid() && Rest() == tokens && this.tokens == tokens
    {
      this.tokens, pos := tokens, 0;
    }

    predicate Valid()
      reads this
    {
      pos <= |tokens|
    }

    function Rest(): seq<Token>
      reads this
      requires Valid()
    {
      tokens[pos..]
    }

    method Put(token: Token)
      requires Valid()
      modifies this
      ensures Valid() && pos == old(pos) && tokens == old(tokens) + [token]
    {
      tokens := tokens + [token];
    }

    /** Takes the next token, if there is one. */
    method Get() returns (token: Option<Token>)
      requires Valid()
      modifies this
      ensures Valid() && tokens == old(tokens)
      ensures old(Rest()) == [] ==> token == None && Rest() == []
      ensures old(Rest()) != [] ==> token == Some(old(Rest())[0]) && Rest() == old(Rest())[1..]
    {
      if pos == |tokens| {
        return None;
      }
      token := Some(tokens[pos]);
      pos := pos + 1;
    }

    method AtEnd() returns (end: bool)
      requires Valid()
      ensures end <==> Rest() == [] || Rest()[0].EndArray?
    {
      end := pos == |tokens| || tokens[pos].EndArray?;
    }
  }

  method Write(argument: Argument, item: Item)
    requires argument.Valid()
    modifies argument
    ensures argument.Valid() && argument.pos == old(argument.pos)
    ensures argument.tokens == old(argument.tokens) + Encode(item)
    decreases item
  {
    argument.Put(BeginStructure);
    argument.Put(Number(item.id));
    argument.Put(Dictionary(item.properties));
    argument.Put(BeginArray);
    ghost var head := old(argument.tokens) + [BeginStructure, Number(item.id), Dictionary(item.properties), BeginArray];
    assert argument.tokens == head;
    for k := 0 to |item.children|
      invariant argument.Valid() && argument.pos == old(argument.pos)
      invariant argument.tokens == head + EncodeAll(item.children[..k])
    {
      hide Encode, EncodeAll;
      argument.Put(BeginVariant);
      Write(argument, item.children[k]);
      argument.Put(EndVariant);
      EncodeOneMore(item.children[..k], item.children[k]);
      assert item.children[..k + 1] == item.children[..k] + [item.children[k]];
      Regroup(head + EncodeAll(item.children[..k]), [BeginVariant], Encode(item.children[k]), [EndVariant]);
      Assoc([BeginVariant], Encode(item.children[k]), [EndVariant]);
      Assoc(head, EncodeAll(item.children[..k]), [BeginVariant] + (Encode(item.children[k]) + [EndVariant]));
    }
    assert item.children[..|item.children|] == item.children;
    argument.Put(EndArray);
    argument.Put(EndStructure);
    Finish(old(argument.tokens), item, argument.tokens);
  }

  lemma Finish(before: seq<Token>, item: Item, tokens: seq<Token>)
    requires var head := before + [BeginStructure, Number(item.id), Dictionary(item.properties), BeginArray];
             tokens == head + EncodeAll(item.children) + [EndArray] + [EndStructure]
    ensures tokens == before + Encode(item)
  {
    hide EncodeAll;
    var start := [BeginStructure, Number(item.id), Dictionary(item.properties), BeginArray];
    Regroup(before, start, EncodeAll(item.children), [EndArray, EndStructure]);
    Assoc(start, EncodeAll(item.children), [EndArray, EndStructure]);
    Assoc(before + start + EncodeAll(item.children), [EndArray], [EndStructure]);
    assert [EndArray] + [EndStructure] == [EndArray, EndStructure];
  }

  lemma {:induction false} EncodeOneMore(items: seq<Item>, item: Item)
    ensures EncodeAll(items + [item]) == EncodeAll(items) + ([BeginVariant] + Encode(item) + [EndVariant])
    decreases items
  {
    if items == [] {
      assert items + [item] == [item];
    } else {
      assert (items + [item])[1..] == items[1..] + [item];
      EncodeOneMore(items[1..], item);
    }
  }

  /** Reads the front of an item, up to its children. */
  method ReadHead(argument: Argument) returns (head: Option<(Int32, Properties)>)
    requires argument.Valid()
    modifies argument
    ensures argument.Valid() && argument.tokens == old(argument.tokens)
    ensures var s := old(argument.Rest());
            && (head.Some? <==> |s| >= 4 && s[0].BeginStructure? && s[1].Number? && s[2].Dictionary? && s[3].BeginArray?)
            && (head.Some? ==> head.value == (s[1].id, s[2].properties) && argument.Rest() == s[4..])
  {
    ghost var s := argument.Rest();
    var t0 := argument.Get();
    var t1 := argument.Get();
    var t2 := argument.Get();
    var t3 := argument.Get();
    if !(t3.Some? && t0.value.BeginStructure? && t1.value.Number? && t2.value.Dictionary? && t3.value.BeginArray?) {
      return None;
    }
    assert argument.Rest() == s[4..];
    head := Some((t1.value.id, t2.value.properties));
  }

  /** Reads a child out of its variant. */
  method ReadChild(argument: Argument) returns (child: Option<Item>)
    requires argument.Valid()
    modifies argument
    ensures argument.Valid() && argument.tokens == old(argument.tokens)
    ensures var s := old(argument.Rest());
            && (child.Some? <==> s != [] && s[0].BeginVariant? && Decode([], s[1..]).Some? &&
                                 Decode([], s[1..]).value.1 != [] && Decode([], s[1..]).value.1[0].EndVariant?)
            && (child.Some? ==> child.value == Decode([], s[1..]).value.0 &&
                                argument.Rest() == Decode([], s[1..]).value.1[1..])
    ensures child.Some? ==> old(argument.pos) < argument.pos
    decreases |argument.tokens| - argument.pos, 0
  {
    hide Decode;
    var open := argument.Get();
    if open != Some(BeginVariant) {
      return None;
    }
    child := Read(argument, []);
    if child.None? {
      return;
    }
    var close := argument.Get();
    if close != Some(EndVariant) {
      return None;
    }
  }

  /** Reads an item into a target that has `already` as children; no item if the message is malformed. */
  method Read(argument: Argument, already: seq<Item>) returns (item: Option<Item>)
    requires argument.Valid()
    modifies argument
    ensures argument.Valid() && argument.tokens == old(argument.tokens)
    ensures item.Some? <==> Decode(already, old(argument.Rest())).Some?
    ensures item.Some? ==> Decode(already, old(argument.Rest())) == Some((item.value, argument.Rest()))
    decreases |argument.tokens| - argument.pos, 1
  {
    ghost var s := argument.Rest();
    var head := ReadHead(argument);
    if head.None? {
      return None;
    }
    var children := already;
    var end := argument.AtEnd();
    while !end
      invariant argument.Valid() && argument.tokens == old(argument.tokens)
      invariant old(argument.pos) < argument.pos
      invariant end <==> argument.Rest() == [] || argument.Rest()[0].EndArray?
      invariant DecodeAll(children, argument.Rest()) == DecodeAll(already, s[4..])
      decreases |argument.tokens| - argument.pos
    {
      hide Decode;
      var child := ReadChild(argument);
      if child.None? {
        return None;
      }
      children := children + [child.value];
      end := argument.AtEnd();
    }
    ghost var tail := argument.Rest();
    var endArray := argument.Get();
    var endStructure := argument.Get();
    if endArray != Some(EndArray) || endStructure != Some(EndStructure) {
      return None;
    }
    assert argument.Rest() == tail[2..];
    item := Some(Item(head.value.0, head.value.1, children));
  }
}
