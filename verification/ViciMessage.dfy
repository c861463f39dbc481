/** vici messages: a tree of sections, values and lists. It is printed by
    recursion and parsed with a stack of its own. Names are bytes. */
module ViciMessage {
  import opened Bytes

  const SECTION_START: byte := 1
  const SECTION_END: byte := 2
  const KEY_VALUE: byte := 3
  const LIST_START: byte := 4
  const LIST_ITEM: byte := 5
  const LIST_END: byte := 6

  /** The deepest nesting taken from the wire. */
  const MAX_DEPTH: nat := 64
  const MESSAGE_SIZE_MAX: nat := 512 * 1024

  datatype Item =
    | Section(name: bytes, body: seq<Item>)
    | KeyValue(name: bytes, value: bytes)
    | Values(name: bytes, items: seq<bytes>)

  /** A message: its elements in order. */
  type Tree = seq<Item>

  function Depth(tree: Tree): nat {
    if tree == [] then 0
    else
      var n := |tree| - 1;
      var before, last := Depth(tree[..n]), DepthOf(tree[n]);
      if before < last then last else before
  }

  function DepthOf(item: Item): nat {
    if item.Section? then 1 + Depth(item.body) else 0
  }

  // ---- printing --------------------------------------------------------------------

  predicate SizedValue(value: bytes) { |value| < 0x1_0000 }

  /** Every length fits its field. */
  predicate Sized(tree: Tree) {
    forall i :: 0 <= i < |tree| ==> SizedItem(tree[i])
  }

  predicate SizedItem(item: Item) {
    && |item.name| < 0x100
    && match item
       case Section(_, body) => Sized(body)
       case KeyValue(_, value) => SizedValue(value)
       case Values(_, items) => forall v :: v in items ==> SizedValue(v)
  }

  predicate Named(tree: Tree) {
    forall i :: 0 <= i < |tree| ==> NamedItem(tree[i])
  }

  /** No name is empty. */
  predicate NamedItem(item: Item) {
    item.name != [] && (item.Section? ==> Named(item.body))
  }

  function PutName(name: bytes): bytes
    requires |name| < 0x100
  {
    [|name|] + name
  }

  function PutValue(value: bytes): bytes
    requires SizedValue(value)
  {
    Be16(|value|) + value
  }

  function PutValues(items: seq<bytes>): bytes
    requires forall v :: v in items ==> SizedValue(v)
  {
    if items == [] then []
    else PutValues(items[..|items| - 1]) + [LIST_ITEM] + PutValue(items[|items| - 1])
  }

  /** The wire form. */
  function Print(tree: Tree): bytes
    requires Sized(tree)
  {
    if tree == [] then [] else Print(tree[..|tree| - 1]) + PrintItem(tree[|tree| - 1])
  }

  function PrintItem(item: Item): bytes
    requires SizedItem(item)
  {
    match item
    case Section(name, body) => [SECTION_START] + PutName(name) + Print(body) + [SECTION_END]
    case KeyValue(name, value) => [KEY_VALUE] + PutName(name) + PutValue(value)
    case Values(name, items) => [LIST_START] + PutName(name) + PutValues(items) + [LIST_END]
  }

  predicate Printable(tree: Tree) { Sized(tree) && Named(tree) }

  function Encode(tree: Tree): Result<bytes> {
    if !Printable(tree) then Err(TooLong)
    else if |Print(tree)| > MESSAGE_SIZE_MAX then Err(TooLong)
    else Ok(Print(tree))
  }

  method PutNameInto(out: bytes, name: bytes) returns (r: Result<bytes>)
    ensures r == if 1 <= |name| < 0x100 then Ok(out + PutName(name)) else Err(TooLong)
  {
    var length := |name|;
    if length == 0 || length > 0xff {
      return Err(TooLong);
    }
    var b := out + [length];
    b := b + name;
    assert b == out + PutName(name);
    r := Ok(b);
  }

  method PutValueInto(out: bytes, value: bytes) returns (r: Result<bytes>)
    ensures r == if SizedValue(value) then Ok(out + PutValue(value)) else Err(TooLong)
  {
    if |value| >= 0x1_0000 {
      return Err(TooLong);
    }
    var b := out + Be16(|value|);
    b := b + value;
    assert b == out + PutValue(value);
    r := Ok(b);
  }

  lemma ListPrints(out: bytes, name: bytes, items: seq<bytes>)
    requires SizedItem(Values(name, items))
    ensures out + [LIST_START] + PutName(name) + PutValues(items) + [LIST_END] == out + PrintItem(Values(name, items))
  {
  }

  lemma PutOneMore(front: bytes, items: seq<bytes>, i: nat)
    requires i < |items| && (forall v :: v in items[..i] ==> SizedValue(v)) && SizedValue(items[i])
    ensures forall v :: v in items[..i + 1] ==> SizedValue(v)
    ensures front + PutValues(items[..i + 1]) == front + PutValues(items[..i]) + [LIST_ITEM] + PutValue(items[i])
  {
    assert items[..i + 1][..i] == items[..i];
  }

  method EncodeListInto(name: bytes, items: seq<bytes>, out: bytes) returns (r: Result<bytes>)
    ensures r == if SizedItem(Values(name, items)) && name != [] then Ok(out + PrintItem(Values(name, items))) else Err(TooLong)
  {
    var b :- PutNameInto(out + [LIST_START], name);
    ghost var front := b;
    var i := 0;
    while i < |items|
      invariant 0 <= i <= |items|
      invariant forall v :: v in items[..i] ==> SizedValue(v)
      invariant b == front + PutValues(items[..i])
    {
      ghost var before := b;
      b :- PutValueInto(b + [LIST_ITEM], items[i]);
      PutOneMore(front, items, i);
      assert b == before + [LIST_ITEM] + PutValue(items[i]);
      i := i + 1;
    }
    assert items[..i] == items;
    b := b + [LIST_END];
    ListPrints(out, name, items);
    r := Ok(b);
  }

  /** Appends the wire form, or fails on a name or value it cannot write. */
  method EncodeInto(tree: Tree, out: bytes) returns (r: Result<bytes>)
    ensures r == if Printable(tree) then Ok(out + Print(tree)) else Err(TooLong)
  {
    var b, i := out, 0;
    while i < |tree|
      invariant 0 <= i <= |tree|
      invariant Printable(tree[..i]) && b == out + Print(tree[..i])
    {
      assert tree[..i + 1][..i] == tree[..i];
      var item := tree[i];
      ghost var before := b;
      var written := EncodeItemInto(item, b);
      if written.Err? {
        return written;
      }
      b := written.value;
      i := i + 1;
    }
    assert tree[..i] == tree;
    r := Ok(b);
  }

  method EncodeItemInto(item: Item, out: bytes) returns (r: Result<bytes>)
    ensures r == if SizedItem(item) && NamedItem(item) then Ok(out + PrintItem(item)) else Err(TooLong)
  {
    match item
    case Section(name, body) =>
      var b :- PutNameInto(out + [SECTION_START], name);
      b :- EncodeInto(body, b);
      b := b + [SECTION_END];
      assert b == out + PrintItem(item);
      r := Ok(b);
    case KeyValue(name, value) =>
      var b :- PutNameInto(out + [KEY_VALUE], name);
      r := PutValueInto(b, value);
      assert r.Ok? ==> r.value == out + PrintItem(item);
    case Values(name, items) =>
      r := EncodeListInto(name, items, out);
  }

  // ---- parsing -----------------------------------------------------------------------

  /** A section under construction. */
  datatype Frame = Frame(name: bytes, items: Tree)

  /** Sections under construction, the innermost last, and an open list. */
  datatype State = State(stack: seq<Frame>, list: Option<(bytes, seq<bytes>)>)

  const START := State([Frame([], [])], None)

  function TakeName(data: bytes): Result<(bytes, bytes)> {
    if data == [] || |data| - 1 < data[0] then Err(Malformed)
    else Ok((data[1..1 + data[0]], data[1 + data[0]..]))
  }

  function TakeValue(data: bytes): Result<(bytes, bytes)> {
    if |data| < 2 || |data| - 2 < FromBe16(data[..2]) then Err(Malformed)
    else Ok((data[2..2 + FromBe16(data[..2])], data[2 + FromBe16(data[..2])..]))
  }

  function Push(stack: seq<Frame>, item: Item): seq<Frame>
    requires stack != []
  {
    var top := stack[|stack| - 1];
    stack[..|stack| - 1] + [Frame(top.name, top.items + [item])]
  }

  /** One element, or one end, off the data. */
  function Step(s: State, data: bytes): (r: Result<(State, bytes)>)
    requires s.stack != [] && data != []
    ensures r.Ok? ==> r.value.0.stack != [] && |r.value.1| < |data|
  {
    var kind, rest := data[0], data[1..];
    if kind == SECTION_START then
      if s.list.Some? || |s.stack| > MAX_DEPTH then Err(Malformed)
      else
        var (name, after) :- TakeName(rest);
        Ok((s.(stack := s.stack + [Frame(name, [])]), after))
    else if kind == SECTION_END then
      if s.list.Some? || |s.stack| < 2 then Err(Malformed)
      else
        var top := s.stack[|s.stack| - 1];
        Ok((s.(stack := Push(s.stack[..|s.stack| - 1], Section(top.name, top.items))), rest))
    else if kind == KEY_VALUE then
      if s.list.Some? then Err(Malformed)
      else
        var (name, after) :- TakeName(rest);
        var (value, end) :- TakeValue(after);
        Ok((s.(stack := Push(s.stack, KeyValue(name, value))), end))
    else if kind == LIST_START then
      if s.list.Some? then Err(Malformed)
      else
        var (name, after) :- TakeName(rest);
        Ok((s.(list := Some((name, []))), after))
    else if kind == LIST_ITEM then
      var (value, after) :- TakeValue(rest);
      if s.list.None? then Err(Malformed)
      else Ok((s.(list := Some((s.list.value.0, s.list.value.1 + [value]))), after))
    else if kind == LIST_END then
      if s.list.None? then Err(Malformed)
      else Ok((State(Push(s.stack, Values(s.list.value.0, s.list.value.1)), None), rest))
    else Err(Malformed)
  }

  function Parse(s: State, data: bytes): Result<Tree>
    requires s.stack != []
    decreases |data|
  {
    if data == [] then
      if s.list.Some? || |s.stack| != 1 then Err(Malformed) else Ok(s.stack[0].items)
    else
      var (next, rest) :- Step(s, data);
      Parse(next, rest)
  }

  function Decode(data: bytes): Result<Tree> {
    if |data| > MESSAGE_SIZE_MAX then Err(TooLong) else Parse(START, data)
  }

  method NextName(data: bytes, pos: nat) returns (r: Result<bytes>, after: nat)
    requires pos <= |data|
    ensures after <= |data|
    ensures match TakeName(data[pos..])
            case Ok((name, rest)) => r == Ok(name) && after > pos && data[after..] == rest
            case Err(e) => r == Err(e)
  {
    after := pos;
    if pos == |data| || |data| - pos - 1 < data[pos] {
      return Err(Malformed), pos;
    }
    after := pos + 1 + data[pos];
    r := Ok(data[pos + 1..after]);
    assert data[pos..][1 + data[pos]..] == data[after..];
    assert data[pos..][1..1 + data[pos]] == data[pos + 1..after];
  }

  method NextValue(data: bytes, pos: nat) returns (r: Result<bytes>, after: nat)
    requires pos <= |data|
    ensures after <= |data|
    ensures match TakeValue(data[pos..])
            case Ok((value, rest)) => r == Ok(value) && after > pos && data[after..] == rest
            case Err(e) => r == Err(e)
  {
    after := pos;
    if |data| - pos < 2 {
      return Err(Malformed), pos;
    }
    assert data[pos..][..2] == data[pos..pos + 2];
    var length := FromBe16(data[pos..pos + 2]);
    if |data| - pos - 2 < length {
      return Err(Malformed), pos;
    }
    after := pos + 2 + length;
    r := Ok(data[pos + 2..after]);
    assert data[pos..][2 + length..] == data[after..];
    assert data[pos..][2..2 + length] == data[pos + 2..after];
  }

  method DecodeTree(data: bytes) returns (r: Result<Tree>)
    ensures r == Decode(data)
  {
    if |data| > MESSAGE_SIZE_MAX {
      return Err(TooLong);
    }
    var pos := 0;
    var stack := [Frame([], [])];
    var list: Option<(bytes, seq<bytes>)> := None;
    assert data[0..] == data;
    while pos < |data|
      invariant pos <= |data| && stack != []
      invariant Parse(START, data) == Parse(State(stack, list), data[pos..])
      decreases |data| - pos
    {
      var kind := data[pos];
      ghost var here := data[pos..];
      pos := pos + 1;
      assert here[1..] == data[pos..];
      if kind == SECTION_START {
        if list.Some? || |stack| > MAX_DEPTH {
          return Err(Malformed);
        }
        var name, after := NextName(data, pos);
        if name.Err? {
          return Err(name.error);
        }
        stack := stack + [Frame(name.value, [])];
        pos := after;
      } else if kind == SECTION_END {
        if list.Some? || |stack| < 2 {
          return Err(Malformed);
        }
        var top := stack[|stack| - 1];
        stack := Push(stack[..|stack| - 1], Section(top.name, top.items));
      } else if kind == KEY_VALUE {
        if list.Some? {
          return Err(Malformed);
        }
        var name, after := NextName(data, pos);
        if name.Err? {
          return Err(name.error);
        }
        var value, end := NextValue(data, after);
        if value.Err? {
          return Err(value.error);
        }
        stack := Push(stack, KeyValue(name.value, value.value));
        pos := end;
      } else if kind == LIST_START {
        if list.Some? {
          return Err(Malformed);
        }
        var name, after := NextName(data, pos);
        if name.Err? {
          return Err(name.error);
        }
        list := Some((name.value, []));
        pos := after;
      } else if kind == LIST_ITEM {
        var value, after := NextValue(data, pos);
        if value.Err? {
          return Err(value.error);
        }
        if list.None? {
          return Err(Malformed);
        }
        list := Some((list.value.0, list.value.1 + [value.value]));
        pos := after;
      } else if kind == LIST_END {
        if list.None? {
          return Err(Malformed);
        }
        stack := Push(stack, Values(list.value.0, list.value.1));
        list := None;
      } else {
        return Err(Malformed);
      }
    }
    assert data[pos..] == [];
    if list.Some? || |stack| != 1 {
      return Err(Malformed);
    }
    r := Ok(stack[0].items);
  }

  // ---- what is printed parses back -----------------------------------------------------

  lemma TakesName(name: bytes, rest: bytes)
    requires |name| < 0x100
    ensures TakeName(PutName(name) + rest) == Ok((name, rest))
  {
  }

  lemma TakesValue(value: bytes, rest: bytes)
    requires SizedValue(value)
    ensures TakeValue(PutValue(value) + rest) == Ok((value, rest))
  {
    assert (PutValue(value) + rest)[..2] == Be16(|value|);
  }

  /** The elements added to the innermost section. */
  function Grow(s: State, tree: Tree): State
    requires s.stack != []
  {
    var top := s.stack[|s.stack| - 1];
    s.(stack := s.stack[..|s.stack| - 1] + [Frame(top.name, top.items + tree)])
  }

  lemma GrowTwice(s: State, a: Tree, b: Tree)
    requires s.stack != []
    ensures Grow(Grow(s, a), b) == Grow(s, a + b)
  {
    var top := s.stack[|s.stack| - 1];
    assert Grow(s, a).stack[..|s.stack| - 1] == s.stack[..|s.stack| - 1];
    assert top.items + a + b == top.items + (a + b);
  }

  lemma GrowLast(s: State, tree: Tree)
    requires s.stack != [] && tree != []
    ensures Grow(Grow(s, tree[..|tree| - 1]), [tree[|tree| - 1]]) == Grow(s, tree)
  {
    GrowTwice(s, tree[..|tree| - 1], [tree[|tree| - 1]]);
    assert tree[..|tree| - 1] + [tree[|tree| - 1]] == tree;
  }

  lemma GrowNothing(s: State)
    requires s.stack != []
    ensures Grow(s, []) == s
  {
    assert s.stack == s.stack[..|s.stack| - 1] + [s.stack[|s.stack| - 1]];
    assert s.stack[|s.stack| - 1].items + [] == s.stack[|s.stack| - 1].items;
  }

  predicate Room(s: State, depth: nat) {
    s.stack != [] && s.list.None? && |s.stack| + depth <= MAX_DEPTH + 1
  }

  lemma ParseKeyValue(s: State, name: bytes, value: bytes, rest: bytes)
    requires Room(s, 0) && |name| < 0x100 && SizedValue(value)
    ensures Parse(s, PrintItem(KeyValue(name, value)) + rest) == Parse(Grow(s, [KeyValue(name, value)]), rest)
  {
    var data := PrintItem(KeyValue(name, value)) + rest;
    TakesName(name, PutValue(value) + rest);
    TakesValue(value, rest);
    assert data[1..] == PutName(name) + (PutValue(value) + rest);
    assert Step(s, data) == Ok((Grow(s, [KeyValue(name, value)]), rest));
  }

  lemma ParseOneItem(s: State, value: bytes, rest: bytes)
    requires s.stack != [] && s.list.Some? && SizedValue(value)
    ensures Parse(s, [LIST_ITEM] + PutValue(value) + rest) == Parse(s.(list := Some((s.list.value.0, s.list.value.1 + [value]))), rest)
  {
    var data := [LIST_ITEM] + PutValue(value) + rest;
    assert data[1..] == PutValue(value) + rest;
    TakesValue(value, rest);
    assert Step(s, data) == Ok((s.(list := Some((s.list.value.0, s.list.value.1 + [value]))), rest));
  }

  lemma ParseLastItem(s: State, name: bytes, items: seq<bytes>, n: nat, rest: bytes)
    requires s.stack != [] && n + 1 == |items| && SizedValue(items[n])
    ensures Parse(s.(list := Some((name, items[..n]))), [LIST_ITEM] + PutValue(items[n]) + rest)
            == Parse(s.(list := Some((name, items))), rest)
  {
    ParseOneItem(s.(list := Some((name, items[..n]))), items[n], rest);
    assert items[..n] + [items[n]] == items;
  }

  lemma {:induction false} ParseItems(s: State, name: bytes, items: seq<bytes>, rest: bytes)
    requires s.stack != [] && s.list == Some((name, [])) && forall v :: v in items ==> SizedValue(v)
    ensures Parse(s, PutValues(items) + rest) == Parse(s.(list := Some((name, items))), rest)
    decreases |items|
  {
    if items == [] {
      assert PutValues(items) + rest == rest;
    } else {
      var n := |items| - 1;
      var last := [LIST_ITEM] + PutValue(items[n]);
      assert items[n] in items;
      assert PutValues(items) + rest == PutValues(items[..n]) + (last + rest);
      ParseItems(s, name, items[..n], last + rest);
      ParseLastItem(s, name, items, n, rest);
    }
  }

  lemma ParseList(s: State, name: bytes, items: seq<bytes>, rest: bytes)
    requires Room(s, 0) && SizedItem(Values(name, items))
    ensures Parse(s, PrintItem(Values(name, items)) + rest) == Parse(Grow(s, [Values(name, items)]), rest)
  {
    var data := PrintItem(Values(name, items)) + rest;
    var after := PutValues(items) + ([LIST_END] + rest);
    TakesName(name, after);
    assert data[1..] == PutName(name) + after;
    assert Step(s, data) == Ok((s.(list := Some((name, []))), after));
    ParseItems(s.(list := Some((name, []))), name, items, [LIST_END] + rest);
    var inside := s.(list := Some((name, items)));
    assert ([LIST_END] + rest)[1..] == rest;
    assert Step(inside, [LIST_END] + rest) == Ok((Grow(s, [Values(name, items)]), rest));
  }

  /** A section begins: one more frame. */
  lemma ParseStart(s: State, name: bytes, rest: bytes)
    requires Room(s, 1) && |name| < 0x100
    ensures Parse(s, [SECTION_START] + PutName(name) + rest) == Parse(s.(stack := s.stack + [Frame(name, [])]), rest)
  {
    var data := [SECTION_START] + PutName(name) + rest;
    TakesName(name, rest);
    assert data[1..] == PutName(name) + rest;
    assert Step(s, data) == Ok((s.(stack := s.stack + [Frame(name, [])]), rest));
  }

  lemma ParseEnd(s: State, name: bytes, body: Tree, rest: bytes)
    requires Room(s, 0)
    ensures Parse(s.(stack := s.stack + [Frame(name, body)]), [SECTION_END] + rest) == Parse(Grow(s, [Section(name, body)]), rest)
  {
    var inside := s.(stack := s.stack + [Frame(name, body)]);
    assert inside.stack[..|inside.stack| - 1] == s.stack;
    assert ([SECTION_END] + rest)[1..] == rest;
    assert Step(inside, [SECTION_END] + rest) == Ok((Grow(s, [Section(name, body)]), rest));
  }

  lemma PrintSplits(tree: Tree, rest: bytes)
    requires tree != [] && Sized(tree)
    ensures var n := |tree| - 1;
            Print(tree) + rest == Print(tree[..n]) + (PrintItem(tree[n]) + rest)
  {
  }

  lemma {:induction false} ParsePrintItem(s: State, item: Item, rest: bytes)
    requires Room(s, DepthOf(item)) && SizedItem(item)
    ensures Parse(s, PrintItem(item) + rest) == Parse(Grow(s, [item]), rest)
    decreases item
  {
    match item
    case Section(name, body) =>
      var inside := s.(stack := s.stack + [Frame(name, [])]);
      var after := [SECTION_END] + rest;
      assert PrintItem(item) + rest == [SECTION_START] + PutName(name) + (Print(body) + after);
      ParseStart(s, name, Print(body) + after);
      ParsePrint(inside, body, after);
      assert Grow(inside, body) == s.(stack := s.stack + [Frame(name, body)]) by {
        assert inside.stack[..|inside.stack| - 1] == s.stack;
        assert [] + body == body;
      }
      ParseEnd(s, name, body, rest);
    case KeyValue(name, value) => ParseKeyValue(s, name, value, rest);
    case Values(name, items) => ParseList(s, name, items, rest);
  }

  lemma {:induction false} ParsePrint(s: State, tree: Tree, rest: bytes)
    requires Room(s, Depth(tree)) && Sized(tree)
    ensures Parse(s, Print(tree) + rest) == Parse(Grow(s, tree), rest)
    decreases tree
  {
    if tree == [] {
      GrowNothing(s);
      assert Print(tree) + rest == rest;
    } else {
      var n := |tree| - 1;
      var after := PrintItem(tree[n]) + rest;
      PrintSplits(tree, rest);
      ParsePrint(s, tree[..n], after);
      assert Room(Grow(s, tree[..n]), DepthOf(tree[n]));
      ParsePrintItem(Grow(s, tree[..n]), tree[n], rest);
      GrowLast(s, tree);
    }
  }

  // ---- what is nested too deep does not -------------------------------------------------

  predicate TooDeep(s: State, depth: nat) {
    s.stack != [] && s.list.None? && |s.stack| <= MAX_DEPTH + 1 < |s.stack| + depth
  }

  lemma {:induction false} DeepItemFails(s: State, item: Item, rest: bytes)
    requires TooDeep(s, DepthOf(item)) && SizedItem(item)
    ensures Parse(s, PrintItem(item) + rest).Err?
    decreases item
  {
    var name, body := item.name, item.body;
    var after := Print(body) + ([SECTION_END] + rest);
    assert PrintItem(item) + rest == [SECTION_START] + PutName(name) + after;
    if |s.stack| <= MAX_DEPTH {
      ParseStart(s, name, after);
      DeepFails(s.(stack := s.stack + [Frame(name, [])]), body, [SECTION_END] + rest);
    }
  }

  lemma {:induction false} DeepFails(s: State, tree: Tree, rest: bytes)
    requires TooDeep(s, Depth(tree)) && Sized(tree)
    ensures Parse(s, Print(tree) + rest).Err?
    decreases tree
  {
    var n := |tree| - 1;
    var after := PrintItem(tree[n]) + rest;
    assert Print(tree) + rest == Print(tree[..n]) + after;
    if TooDeep(s, Depth(tree[..n])) {
      DeepFails(s, tree[..n], after);
    } else {
      ParsePrint(s, tree[..n], after);
      DeepItemFails(Grow(s, tree[..n]), tree[n], rest);
    }
  }

  // ---- what parses is what it prints -----------------------------------------------------

  predicate SizedFrames(stack: seq<Frame>) {
    forall i :: 0 <= i < |stack| ==> |stack[i].name| < 0x100 && Sized(stack[i].items)
  }

  predicate SizedState(s: State) {
    && s.stack != [] && SizedFrames(s.stack)
    && (s.list.Some? ==> SizedItem(Values(s.list.value.0, s.list.value.1)))
  }

  /** The bytes that led to a state. */
  function Written(stack: seq<Frame>): bytes
    requires stack != [] && SizedFrames(stack)
  {
    var top := stack[|stack| - 1];
    if |stack| == 1 then Print(top.items)
    else Written(stack[..|stack| - 1]) + [SECTION_START] + PutName(top.name) + Print(top.items)
  }

  function WrittenList(list: Option<(bytes, seq<bytes>)>): bytes
    requires list.Some? ==> SizedItem(Values(list.value.0, list.value.1))
  {
    if list.None? then [] else [LIST_START] + PutName(list.value.0) + PutValues(list.value.1)
  }

  function Consumed(s: State): bytes
    requires SizedState(s)
  {
    Written(s.stack) + WrittenList(s.list)
  }

  lemma PrintOneMore(tree: Tree, item: Item)
    requires Sized(tree) && SizedItem(item)
    ensures Sized(tree + [item]) && Print(tree + [item]) == Print(tree) + PrintItem(item)
  {
    assert (tree + [item])[..|tree|] == tree;
  }

  lemma PushWrites(stack: seq<Frame>, item: Item)
    requires stack != [] && SizedFrames(stack) && SizedItem(item)
    ensures SizedFrames(Push(stack, item)) && Written(Push(stack, item)) == Written(stack) + PrintItem(item)
  {
    var n := |stack| - 1;
    PrintOneMore(stack[n].items, item);
    assert Push(stack, item)[..n] == stack[..n];
  }

  lemma NameTaken(data: bytes)
    requires TakeName(data).Ok?
    ensures |TakeName(data).value.0| < 0x100 && data == PutName(TakeName(data).value.0) + TakeName(data).value.1
  {
  }

  lemma ValueTaken(data: bytes)
    requires TakeValue(data).Ok?
    ensures SizedValue(TakeValue(data).value.0) && data == PutValue(TakeValue(data).value.0) + TakeValue(data).value.1
  {
    FromBe16RoundTrip(data[..2]);
  }

  /** A step moves bytes from the data to the state, and changes none. */
  ghost predicate Moves(s: State, data: bytes, next: State, rest: bytes)
    requires SizedState(s)
  {
    SizedState(next) && Consumed(s) + data == Consumed(next) + rest
  }

  lemma StartMoves(s: State, data: bytes)
    requires SizedState(s) && s.list.None? && data != [] && data[0] == SECTION_START && Step(s, data).Ok?
    ensures Moves(s, data, Step(s, data).value.0, Step(s, data).value.1)
  {
    NameTaken(data[1..]);
    var (name, rest) := TakeName(data[1..]).value;
    var next := s.stack + [Frame(name, [])];
    assert next[..|next| - 1] == s.stack;
    assert data == [SECTION_START] + PutName(name) + rest;
    assert Print([]) == [];
  }

  lemma EndMoves(s: State, data: bytes)
    requires SizedState(s) && data != [] && data[0] == SECTION_END && Step(s, data).Ok?
    ensures Moves(s, data, Step(s, data).value.0, Step(s, data).value.1)
  {
    var n := |s.stack| - 1;
    var top := s.stack[n];
    PushWrites(s.stack[..n], Section(top.name, top.items));
    assert data == [SECTION_END] + data[1..];
  }

  lemma KeyValuePrints(data: bytes, name: bytes, value: bytes, after: bytes, rest: bytes)
    requires data != [] && data[0] == KEY_VALUE && SizedItem(KeyValue(name, value))
    requires data[1..] == PutName(name) + after && after == PutValue(value) + rest
    ensures data == PrintItem(KeyValue(name, value)) + rest
  {
    assert data == [KEY_VALUE] + data[1..];
  }

  lemma MovesOn(s: State, data: bytes, printed: bytes, next: State, rest: bytes)
    requires SizedState(s) && SizedState(next) && s.list.None? && next.list.None?
    requires data == printed + rest && Written(next.stack) == Written(s.stack) + printed
    ensures Moves(s, data, next, rest)
  {
    assert Consumed(s) == Written(s.stack) && Consumed(next) == Written(next.stack);
  }

  lemma KeyValueMoves(s: State, data: bytes)
    requires SizedState(s) && data != [] && data[0] == KEY_VALUE && Step(s, data).Ok?
    ensures Moves(s, data, Step(s, data).value.0, Step(s, data).value.1)
  {
    NameTaken(data[1..]);
    var (name, after) := TakeName(data[1..]).value;
    ValueTaken(after);
    var (value, rest) := TakeValue(after).value;
    PushWrites(s.stack, KeyValue(name, value));
    KeyValuePrints(data, name, value, after, rest);
    MovesOn(s, data, PrintItem(KeyValue(name, value)), Step(s, data).value.0, rest);
  }

  lemma ListStartMoves(s: State, data: bytes)
    requires SizedState(s) && data != [] && data[0] == LIST_START && Step(s, data).Ok?
    ensures Moves(s, data, Step(s, data).value.0, Step(s, data).value.1)
  {
    NameTaken(data[1..]);
    var (name, rest) := TakeName(data[1..]).value;
    assert data == WrittenList(Some((name, []))) + rest;
  }

  lemma ListItemMoves(s: State, data: bytes)
    requires SizedState(s) && data != [] && data[0] == LIST_ITEM && Step(s, data).Ok?
    ensures Moves(s, data, Step(s, data).value.0, Step(s, data).value.1)
  {
    ValueTaken(data[1..]);
    var (value, rest) := TakeValue(data[1..]).value;
    var items := s.list.value.1;
    assert (items + [value])[..|items|] == items;
    assert data == [LIST_ITEM] + PutValue(value) + rest;
  }

  lemma ListEndMoves(s: State, data: bytes)
    requires SizedState(s) && data != [] && data[0] == LIST_END && Step(s, data).Ok?
    ensures Moves(s, data, Step(s, data).value.0, Step(s, data).value.1)
  {
    PushWrites(s.stack, Values(s.list.value.0, s.list.value.1));
    assert data == [LIST_END] + data[1..];
  }

  lemma {:induction false} ParsedIsPrinted(s: State, data: bytes)
    requires SizedState(s) && Parse(s, data).Ok?
    ensures Sized(Parse(s, data).value) && Print(Parse(s, data).value) == Consumed(s) + data
    decreases |data|
  {
    if data == [] {
      assert Consumed(s) + data == Print(s.stack[0].items);
    } else {
      match data[0] {
        case 1 => StartMoves(s, data);
        case 2 => EndMoves(s, data);
        case 3 => KeyValueMoves(s, data);
        case 4 => ListStartMoves(s, data);
        case 5 => ListItemMoves(s, data);
        case _ => ListEndMoves(s, data);
      }
      ParsedIsPrinted(Step(s, data).value.0, Step(s, data).value.1);
    }
  }

  /** The parser is the exact inverse of the printer on trees of at most 64
      levels: some bytes decode to a tree if and only if they are what the tree
      prints as, and the tree is not deeper. */
  lemma DecodesExactly(data: bytes, tree: Tree)
    ensures Decode(data) == Ok(tree) <==>
            Sized(tree) && Depth(tree) <= MAX_DEPTH && |data| <= MESSAGE_SIZE_MAX && data == Print(tree)
  {
    if Decode(data) == Ok(tree) {
      assert Consumed(START) + data == data;
      ParsedIsPrinted(START, data);
      assert Print(tree) + [] == data;
      if Depth(tree) > MAX_DEPTH {
        DeepFails(START, tree, []);
      }
    }
    if Sized(tree) && Depth(tree) <= MAX_DEPTH && data == Print(tree) {
      ParsePrint(START, tree, []);
      assert Print(tree) + [] == data && [] + tree == tree;
    }
  }

  /** What is encoded decodes to the same tree, if and only if it nests at
      most 64 levels. */
  lemma TreesSurvive(tree: Tree)
    requires Encode(tree).Ok?
    ensures Decode(Encode(tree).value) == Ok(tree) <==> Depth(tree) <= MAX_DEPTH
  {
    DecodesExactly(Encode(tree).value, tree);
  }

  /** And bytes that decode are what their tree encodes to, if and only if no
      name in it is empty. */
  lemma BytesSurvive(data: bytes)
    requires Decode(data).Ok?
    ensures Encode(Decode(data).value) == Ok(data) <==> Named(Decode(data).value)
  {
    DecodesExactly(data, Decode(data).value);
  }
}
