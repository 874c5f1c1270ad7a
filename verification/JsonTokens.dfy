/** js_span and js_get of win/swarmstate-node.c: walking a JSON tree that is laid out as flat tokens. */
module JsonTokens {
  import opened Prelude

  datatype Kind = ObjectToken | ArrayToken | OtherToken

  /** A token: its kind, the number of its children, and the text from start to end. */
  datatype Token = Token(kind: Kind, size: nat, text: string)

  datatype Tree =
    | Scalar(text: string)
    | Object(text: string, fields: Fields)
    | Array(text: string, items: Items)

  datatype Fields = NoFields | Field(key: string, value: Tree, rest: Fields)

  datatype Items = NoItems | Item(value: Tree, rest: Items)

  function FieldCount(f: Fields): nat {
    match f
    case NoFields => 0
    case Field(_, _, rest) => 1 + FieldCount(rest)
  }

  function ItemCount(i: Items): nat {
    match i
    case NoItems => 0
    case Item(_, rest) => 1 + ItemCount(rest)
  }

  /** The layout of the tokenizer: parents before children, a key before its value, with the value as its child. */
  function Flat(t: Tree): (s: seq<Token>)
    ensures |s| > 0
  {
    match t
    case Scalar(text) => [Token(OtherToken, 0, text)]
    case Object(text, fields) => [Token(ObjectToken, FieldCount(fields), text)] + FlatFields(fields)
    case Array(text, items) => [Token(ArrayToken, ItemCount(items), text)] + FlatItems(items)
  }

  function FlatFields(f: Fields): seq<Token> {
    match f
    case NoFields => []
    case Field(key, value, rest) => [Token(OtherToken, 1, key)] + Flat(value) + FlatFields(rest)
  }

  function FlatItems(i: Items): seq<Token> {
    match i
    case NoItems => []
    case Item(value, rest) => Flat(value) + FlatItems(rest)
  }

  /** The tokens of a part of the tree start at index i. */
  predicate At(tokens: seq<Token>, i: nat, part: seq<Token>) {
    i + |part| <= |tokens| && tokens[i..i + |part|] == part
  }

  lemma AtParts(tokens: seq<Token>, i: nat, a: seq<Token>, b: seq<Token>)
    requires At(tokens, i, a + b)
    ensures At(tokens, i, a) && At(tokens, i + |a|, b)
  {
    assert tokens[i..i + |a|] == (a + b)[..|a|];
    assert tokens[i + |a|..i + |a| + |b|] == (a + b)[|a|..];
  }

  lemma AtFirst(tokens: seq<Token>, i: nat, a: Token, b: seq<Token>)
    requires At(tokens, i, [a] + b)
    ensures tokens[i] == a && At(tokens, i + 1, b)
  {
    AtParts(tokens, i, [a], b);
    assert tokens[i..i + 1][0] == a;
  }

  /** js_span: the number of tokens of the value at i. */
  method Span(tokens: seq<Token>, i: nat, ghost tree: Tree) returns (n: nat)
    requires At(tokens, i, Flat(tree))
    ensures n == |Flat(tree)|
    decreases tree, 1
  {
    n := 1;
    match tree {
      case Scalar(text) =>
        assert tokens[i..i + 1][0] == Token(OtherToken, 0, text);
      case Object(text, fields) =>
        AtFirst(tokens, i, Token(ObjectToken, FieldCount(fields), text), FlatFields(fields));
      case Array(text, items) =>
        AtFirst(tokens, i, Token(ArrayToken, ItemCount(items), text), FlatItems(items));
    }
    if tokens[i].kind == ObjectToken {
      n := SpanFields(tokens, i, tree, tree.fields);
    } else if tokens[i].kind == ArrayToken {
      n := SpanItems(tokens, i, tree, tree.items);
    }
  }

  /** The loop over the pairs of an object. */
  method SpanFields(tokens: seq<Token>, i: nat, ghost tree: Tree, ghost fields: Fields) returns (n: nat)
    requires tree.Object? && tree.fields == fields && i < |tokens| && tokens[i].size == FieldCount(fields)
    requires At(tokens, i + 1, FlatFields(fields))
    ensures n == 1 + |FlatFields(fields)|
    decreases tree, 0
  {
    hide At, Flat, FlatFields;
    n := 1;
    ghost var left := fields;
    var j := 0;
    while j < tokens[i].size
      invariant j <= tokens[i].size && FieldCount(left) == tokens[i].size - j
      invariant left == fields || left < fields
      invariant At(tokens, i + n, FlatFields(left)) && n + |FlatFields(left)| == 1 + |FlatFields(fields)|
    {
      assert left.Field?;
      FieldParts(tokens, i + n, left);
      var v := Span(tokens, i + n + 1, left.value);
      n := n + 1 + v;
      left := left.rest;
      j := j + 1;
    }
    NoFieldsLeft(left);
  }

  lemma NoFieldsLeft(f: Fields)
    ensures FieldCount(f) == 0 ==> FlatFields(f) == []
  {
  }

  lemma FieldParts(tokens: seq<Token>, i: nat, f: Fields)
    requires f.Field? && At(tokens, i, FlatFields(f))
    ensures i < |tokens| && tokens[i] == Token(OtherToken, 1, f.key)
    ensures At(tokens, i + 1, Flat(f.value)) && At(tokens, i + 1 + |Flat(f.value)|, FlatFields(f.rest))
    ensures |FlatFields(f)| == 1 + |Flat(f.value)| + |FlatFields(f.rest)|
  {
    var key := Token(OtherToken, 1, f.key);
    assert FlatFields(f) == [key] + (Flat(f.value) + FlatFields(f.rest));
    AtFirst(tokens, i, key, Flat(f.value) + FlatFields(f.rest));
    AtParts(tokens, i + 1, Flat(f.value), FlatFields(f.rest));
  }

  /** The loop over the elements of an array. */
  method SpanItems(tokens: seq<Token>, i: nat, ghost tree: Tree, ghost items: Items) returns (n: nat)
    requires tree.Array? && tree.items == items && i < |tokens| && tokens[i].size == ItemCount(items)
    requires At(tokens, i + 1, FlatItems(items))
    ensures n == 1 + |FlatItems(items)|
    decreases tree, 0
  {
    hide At, Flat, FlatItems;
    n := 1;
    ghost var left := items;
    var j := 0;
    while j < tokens[i].size
      invariant j <= tokens[i].size && ItemCount(left) == tokens[i].size - j
      invariant left == items || left < items
      invariant At(tokens, i + n, FlatItems(left)) && n + |FlatItems(left)| == 1 + |FlatItems(items)|
    {
      assert left.Item?;
      ItemParts(tokens, i + n, left);
      var v := Span(tokens, i + n, left.value);
      n := n + v;
      left := left.rest;
      j := j + 1;
    }
    NoItemsLeft(left);
  }

  lemma NoItemsLeft(items: Items)
    ensures ItemCount(items) == 0 ==> FlatItems(items) == []
  {
  }

  lemma ItemParts(tokens: seq<Token>, i: nat, items: Items)
    requires items.Item? && At(tokens, i, FlatItems(items))
    ensures At(tokens, i, Flat(items.value)) && At(tokens, i + |Flat(items.value)|, FlatItems(items.rest))
    ensures |FlatItems(items)| == |Flat(items.value)| + |FlatItems(items.rest)|
  {
    assert FlatItems(items) == Flat(items.value) + FlatItems(items.rest);
    hide At, Flat, FlatItems;
    AtParts(tokens, i, Flat(items.value), FlatItems(items.rest));
  }

  // ---- lookup ----

  /** The value of the first field with the key. */
  function Lookup(f: Fields, key: string): Option<Tree> {
    match f
    case NoFields => None
    case Field(k, value, rest) => if k == key then Some(value) else Lookup(rest, key)
  }

  /** How many tokens of the fields come before the root token of that value. */
  function LookupOffset(f: Fields, key: string): nat {
    match f
    case NoFields => 0
    case Field(k, value, rest) => if k == key then 1 else 1 + |Flat(value)| + LookupOffset(rest, key)
  }

  /** A value that is found lies where the offset says, whole. */
  lemma {:induction false} LookupAt(tokens: seq<Token>, i: nat, f: Fields, key: string)
    requires At(tokens, i, FlatFields(f)) && Lookup(f, key).Some?
    ensures At(tokens, i + LookupOffset(f, key), Flat(Lookup(f, key).value))
    decreases f
  {
    hide At, Flat, FlatFields;
    FieldParts(tokens, i, f);
    if f.key != key { LookupAt(tokens, i + 1 + |Flat(f.value)|, f.rest, key); }
  }

  /** No value is found exactly when no field has the key. */
  lemma {:induction false} LookupNone(f: Fields, key: string)
    ensures Lookup(f, key).None? <==> !HasKey(f, key)
  {
    if f.Field? { LookupNone(f.rest, key); }
  }

  function Append(a: Fields, b: Fields): Fields {
    match a
    case NoFields => b
    case Field(k, value, rest) => Field(k, value, Append(rest, b))
  }

  /** Of several fields with one key the first counts, whatever follows. */
  lemma {:induction false} LookupFirst(before: Fields, key: string, value: Tree, rest: Fields)
    requires !HasKey(before, key)
    ensures Lookup(Append(before, Field(key, value, rest)), key) == Some(value)
    decreases before
  {
    if before.Field? { LookupFirst(before.rest, key, value, rest); }
  }

  predicate HasKey(f: Fields, key: string) {
    f.Field? && (f.key == key || HasKey(f.rest, key))
  }

  /** The index of the value token, when the pairs start at k. */
  function LookupIndex(k: nat, f: Fields, key: string): Option<nat> {
    if Lookup(f, key).None? then None else Some(k + LookupOffset(f, key))
  }

  lemma LookupStep(k: nat, f: Fields, key: string)
    requires f.Field?
    ensures LookupIndex(k, f, key) ==
      if f.key == key then Some(k + 1) else LookupIndex(k + 1 + |Flat(f.value)|, f.rest, key)
  {
  }

  lemma LookupEnd(k: nat, key: string)
    ensures LookupIndex(k, NoFields, key) == None
  {
  }

  /** js_get: the index of the value token of the first pair with the key, or NULL. */
  method Get(tokens: seq<Token>, obj: nat, key: string, ghost tree: Tree) returns (r: Option<nat>)
    requires tree.Object? && At(tokens, obj, Flat(tree))
    ensures r == LookupIndex(obj + 1, tree.fields, key)
    ensures r.None? <==> !HasKey(tree.fields, key)
    ensures r.Some? ==> At(tokens, r.value, Flat(Lookup(tree.fields, key).value))
  {
    AtFirst(tokens, obj, Token(ObjectToken, FieldCount(tree.fields), tree.text), FlatFields(tree.fields));
    LookupNone(tree.fields, key);
    if Lookup(tree.fields, key).Some? { LookupAt(tokens, obj + 1, tree.fields, key); }
    r := Walk(tokens, obj, key, tree.fields);
  }

  /** The loop of js_get. */
  method Walk(tokens: seq<Token>, obj: nat, key: string, ghost fields: Fields) returns (r: Option<nat>)
    requires obj < |tokens| && tokens[obj].size == FieldCount(fields) && At(tokens, obj + 1, FlatFields(fields))
    ensures r == LookupIndex(obj + 1, fields, key)
  {
    hide Flat, FlatFields, LookupIndex;
    ghost var left := fields;
    var k: nat := obj + 1;
    var i := 0;
    while i < tokens[obj].size
      invariant i <= tokens[obj].size && FieldCount(left) == tokens[obj].size - i
      invariant At(tokens, k, FlatFields(left))
      invariant LookupIndex(k, left, key) == LookupIndex(obj + 1, fields, key)
    {
      assert left.Field?;
      FieldParts(tokens, k, left);
      LookupStep(k, left, key);
      var val := k + 1;
      if tokens[k].text == key { return Some(val); }
      var span := Span(tokens, val, left.value);
      k := val + span;
      left := left.rest;
      i := i + 1;
    }
    LookupEnd(k, key);
    r := None;
  }
}
