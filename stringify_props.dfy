/** Properties of the serializer model: which quote `quoteString` picks, when
    `serializeKey` leaves a key bare, that a heap without cycles never makes
    `stringify` throw while a container holding a reference back to itself or
    to a container being serialized always does, and what the two layouts look
    like. */
module Json5StringifyProps {
  import opened Wrappers
  import opened Json5Util
  import opened Json5Values
  import opened Json5Stringify

  // ---------------------------------------------------------------- quotes

  /** Without a forced quote, `'` is chosen exactly when the value holds no more
      single quotes than double quotes: ties go to `'`, so the quote that needs
      fewer escapes is chosen. A forced quote is always used. */
  lemma QuoteChoice(value: string, quote: Option<QuoteChar>)
    ensures quote.Some? ==> ChooseQuote(value, quote) == quote.value
    ensures quote.None? ==>
      (ChooseQuote(value, quote) == '\'' <==> Count(value, '\'') <= Count(value, '"'))
    ensures quote.None? ==>
      Count(value, ChooseQuote(value, quote)) <= Count(value, if ChooseQuote(value, quote) == '\'' then '"' else '\'')
  {
  }

  /** Every character of the value yields at least one character of the product. */
  lemma {:induction false} ProductLength(value: string, n: nat)
    requires n <= |value|
    ensures |Product(value, n)| >= n
  {
    if n > 0 {
      ProductLength(value, n - 1);
    }
  }

  /** `quoteString(value)` is longer than the value itself. */
  lemma QuoteTextLonger(value: string, quote: Option<QuoteChar>)
    ensures |QuoteText(value, quote)| >= |value| + 2
  {
    ProductLength(value, |value|);
  }

  /** `serializeKey(key)` returns the key unchanged exactly when it is a bare
      identifier name; otherwise it returns the quoted string. */
  lemma KeyBareIff(u: UnicodeTables, key: string, quote: Option<QuoteChar>)
    ensures KeyText(u, key, quote) == key <==> BareKey(u, key)
    ensures !BareKey(u, key) ==> KeyText(u, key, quote) == QuoteText(key, quote)
  {
    QuoteTextLonger(key, quote);
  }

  // ---------------------------------------------------------------- cycles

  /** Every container on the stack comes before node n. */
  predicate StackBelow(stack: seq<nat>, n: nat) {
    forall k :: 0 <= k < |stack| ==> stack[k] < n
  }

  /** Every container on the stack is node n or comes before it. */
  predicate StackAtMost(stack: seq<nat>, n: nat) {
    forall k :: 0 <= k < |stack| ==> stack[k] <= n
  }

  lemma {:induction false} PropertyAcyclicOk(env: Env, heap: Heap, stack: seq<nat>, indent: string, v: Slot)
    requires Ordered(heap) && RefsInRange(heap) && SlotInRange(heap, v)
    requires v.Ref? ==> StackBelow(stack, v.id)
    ensures PropertyText(env, heap, stack, indent, v).Ok?
    decreases Unvisited(heap, stack), 1, 0
  {
    if v.Ref? {
      ContainerAcyclicOk(env, heap, stack, indent, v.id);
    }
  }

  lemma {:induction false} ContainerAcyclicOk(env: Env, heap: Heap, stack: seq<nat>, indent: string, id: nat)
    requires Ordered(heap) && RefsInRange(heap) && id < |heap| && StackBelow(stack, id)
    ensures ContainerText(env, heap, stack, indent, id).Ok?
    decreases Unvisited(heap, stack), 0, 0
  {
    assert id !in stack;
    PushShrinks(heap, stack, id);
    var inner := indent + env.gap;
    match heap[id]
    case ArrayNode(items) =>
      ItemsAcyclicOk(env, heap, stack + [id], inner, id, |items|);
    case ObjectNode(props) =>
      var keys := ObjectKeys(env, props);
      MembersAcyclicOk(env, heap, stack + [id], inner, id, keys, |keys|);
  }

  lemma {:induction false} ItemsAcyclicOk(env: Env, heap: Heap, stack: seq<nat>, indent: string, id: nat, n: nat)
    requires Ordered(heap) && RefsInRange(heap) && id < |heap| && heap[id].ArrayNode? && n <= |heap[id].items|
    requires StackAtMost(stack, id)
    ensures ItemsText(env, heap, stack, indent, id, n).Ok?
    decreases Unvisited(heap, stack), 2, n
  {
    if n > 0 {
      ItemsAcyclicOk(env, heap, stack, indent, id, n - 1);
      var v := heap[id].items[n - 1];
      ChildInRange(heap, id, n - 1);
      assert NodeOrdered(heap, id);
      assert v == Children(heap[id])[n - 1];
      PropertyAcyclicOk(env, heap, stack, indent, v);
    }
  }

  lemma {:induction false} MembersAcyclicOk(env: Env, heap: Heap, stack: seq<nat>, indent: string, id: nat,
                                            keys: seq<string>, n: nat)
    requires Ordered(heap) && RefsInRange(heap) && id < |heap| && heap[id].ObjectNode? && n <= |keys|
    requires StackAtMost(stack, id)
    ensures MembersText(env, heap, stack, indent, id, keys, n).Ok?
    decreases Unvisited(heap, stack), 2, n
  {
    if n > 0 {
      MembersAcyclicOk(env, heap, stack, indent, id, keys, n - 1);
      var props := heap[id].props;
      var v := Lookup(props, keys[n - 1]);
      LookupInRange(heap, id, keys[n - 1]);
      if v.Ref? {
        var i := IndexOfKey(props, keys[n - 1]);
        assert 0 <= i && v == Children(heap[id])[i];
        assert NodeOrdered(heap, id);
      }
      PropertyAcyclicOk(env, heap, stack, indent, v);
    }
  }

  /** A heap in which every reference points at a later node, as the parser
      builds them, never makes `stringify` throw. */
  lemma OrderedNeverCircular(env: Env, heap: Heap, value: Slot)
    requires Ordered(heap) && SlotInRange(heap, value)
    ensures RefsInRange(heap)
    ensures StringifyText(env, heap, value).Ok?
  {
    OrderedRefsInRange(heap);
    PropertyAcyclicOk(env, heap, [], "", value);
  }

  /** An array holding, at index k, a reference to itself or to a container
      being serialized: `serializeArray` throws. */
  lemma ArrayBackEdgeFails(env: Env, heap: Heap, stack: seq<nat>, indent: string, id: nat, k: nat)
    requires RefsInRange(heap) && id < |heap| && heap[id].ArrayNode? && k < |heap[id].items|
    requires heap[id].items[k].Ref? && heap[id].items[k].id in stack + [id]
    ensures ContainerText(env, heap, stack, indent, id) == Err(CircularStructure)
  {
    if id !in stack {
      var inner := indent + env.gap;
      var s := stack + [id];
      PushShrinks(heap, stack, id);
      if ItemsText(env, heap, s, inner, id, k).Ok? {
        ChildInRange(heap, id, k);
        assert ContainerText(env, heap, s, inner, heap[id].items[k].id).Err?;
      } else {
        ItemsErrPersists(env, heap, s, inner, id, k, k + 1);
      }
      ItemsErrPersists(env, heap, s, inner, id, k + 1, |heap[id].items|);
      assert ItemsText(env, heap, s, inner, id, |heap[id].items|).Err?;
      assert ItemsText(env, heap, s, inner, id, |heap[id].items|).error == CircularStructure;
    }
  }

  /** An object whose visited key `key` holds a reference to itself or to a
      container being serialized: `serializeObject` throws. */
  lemma ObjectBackEdgeFails(env: Env, heap: Heap, stack: seq<nat>, indent: string, id: nat, key: string)
    requires RefsInRange(heap) && id < |heap| && heap[id].ObjectNode?
    requires key in ObjectKeys(env, heap[id].props)
    requires Lookup(heap[id].props, key).Ref? && Lookup(heap[id].props, key).id in stack + [id]
    ensures ContainerText(env, heap, stack, indent, id) == Err(CircularStructure)
  {
    if id !in stack {
      var inner := indent + env.gap;
      var s := stack + [id];
      var keys := ObjectKeys(env, heap[id].props);
      var k :| 0 <= k < |keys| && keys[k] == key;
      PushShrinks(heap, stack, id);
      if MembersText(env, heap, s, inner, id, keys, k).Ok? {
        LookupInRange(heap, id, key);
        assert ContainerText(env, heap, s, inner, Lookup(heap[id].props, key).id).Err?;
      } else {
        MembersErrPersists(env, heap, s, inner, id, keys, k, k + 1);
      }
      MembersErrPersists(env, heap, s, inner, id, keys, k + 1, |keys|);
      assert MembersText(env, heap, s, inner, id, keys, |keys|).Err?;
      assert MembersText(env, heap, s, inner, id, keys, |keys|).error == CircularStructure;
    }
  }

  /** `a = []; a.push(a); stringify(a)` throws. */
  lemma SelfContainingArrayThrows(env: Env)
    ensures StringifyText(env, [ArrayNode([Ref(0)])], Ref(0)) == Err(CircularStructure)
  {
    var heap := [ArrayNode([Ref(0)])];
    assert NodeRefsWithin(heap[0], -1, 1);
    ArrayBackEdgeFails(env, heap, [], "", 0, 0);
  }

  // ---------------------------------------------------------------- layout

  /** One line per part, each indented by `inner` and followed by a comma. */
  function Lines(parts: seq<string>, inner: string): string {
    if parts == [] then "" else inner + parts[0] + ",\n" + Lines(parts[1..], inner)
  }

  lemma {:induction false} JoinLines(parts: seq<string>, inner: string)
    requires parts != []
    ensures inner + Join(parts, ",\n" + inner) + ",\n" == Lines(parts, inner)
    decreases |parts|
  {
    if |parts| == 1 {
      assert Lines(parts[1..], inner) == "";
    } else {
      JoinLines(parts[1..], inner);
      calc {
        inner + Join(parts, ",\n" + inner) + ",\n";
        inner + (parts[0] + (",\n" + inner) + Join(parts[1..], ",\n" + inner)) + ",\n";
        inner + parts[0] + ",\n" + (inner + Join(parts[1..], ",\n" + inner) + ",\n");
        inner + parts[0] + ",\n" + Lines(parts[1..], inner);
      }
    }
  }

  /** With a gap, a non-empty container opens and closes on lines of its own:
      every member or element sits on its own line indented one level deeper,
      ends with a comma, and the closing bracket is indented as the container. */
  lemma ExpandedLayout(open: char, close: char, parts: seq<string>, gap: string, stepback: string, inner: string)
    requires parts != [] && gap != ""
    ensures Layout(open, close, parts, gap, stepback, inner) == [open] + "\n" + Lines(parts, inner) + stepback + [close]
  {
    JoinLines(parts, inner);
  }

  /** The separators `Join` puts between parts. */
  function Separated(parts: seq<string>, sep: string): string
    requires parts != []
  {
    parts[0] + Concat(parts[1..], sep)
  }

  /** Each part preceded by the separator. */
  function Concat(parts: seq<string>, sep: string): string {
    if parts == [] then "" else sep + parts[0] + Concat(parts[1..], sep)
  }

  lemma {:induction false} JoinSeparated(parts: seq<string>, sep: string)
    requires parts != []
    ensures Join(parts, sep) == Separated(parts, sep)
    decreases |parts|
  {
    if |parts| > 1 {
      JoinSeparated(parts[1..], sep);
      assert parts[1..][1..] == parts[2..];
    }
  }

  /** Without a gap, a non-empty container is written on one line: the parts
      separated by single commas with no trailing comma. */
  lemma CompactLayout(open: char, close: char, parts: seq<string>, stepback: string, inner: string)
    requires parts != []
    ensures Layout(open, close, parts, "", stepback, inner) == [open] + Separated(parts, ",") + [close]
  {
    JoinSeparated(parts, ",");
  }

  /** An empty array, or an object none of whose visited keys has a JSON5 value,
      is written `[]` or `{}` whatever the gap. */
  lemma EmptyContainers(env: Env, heap: Heap, stack: seq<nat>, indent: string, id: nat)
    requires RefsInRange(heap) && id < |heap| && id !in stack
    requires heap[id].ArrayNode? ==> heap[id].items == []
    requires heap[id].ObjectNode? ==> ObjectKeys(env, heap[id].props) == []
    ensures ContainerText(env, heap, stack, indent, id) == Ok(if heap[id].ArrayNode? then "[]" else "{}")
  {
  }

  // ---------------------------------------------------------------- examples

  /** `stringify({a: 1})` is `{a:1}`: no spaces and no trailing comma. */
  lemma CompactObjectExample(u: UnicodeTables, one: Number)
    ensures StringifyText(MakeEnv(u, None, NoSpace, None, n => "1"), [ObjectNode([Prop("a", NumV(one))])], Ref(0))
      == Ok(Some("{a:1}"))
  {
    var heap := [ObjectNode([Prop("a", NumV(one))])];
    assert NodeRefsWithin(heap[0], -1, 1);
    assert BareKey(u, "a");
    assert Keys(heap[0].props) == ["a"];
    assert Lookup(heap[0].props, "a") == NumV(one);
    var compact := MakeEnv(u, None, NoSpace, None, n => "1");
    assert MemberText(compact, "a", "1") == "a:1";
    assert PropertyText(compact, heap, [0], "", NumV(one)) == Ok(Some("1"));
    assert MembersText(compact, heap, [0], "", 0, ["a"], 0) == Ok([]);
    MembersNext(compact, heap, [0], "", 0, ["a"], 0, [], PropertyText(compact, heap, [0], "", NumV(one)));
    assert [] + ["a:1"] == ["a:1"];
    assert Layout('{', '}', ["a:1"], "", "", "") == "{a:1}";
    assert ObjectKeys(compact, heap[0].props) == ["a"];
    assert [] + [0] == [0];
    assert compact.gap == "" && "" + "" == "";
    assert ContainerText(compact, heap, [], "", 0) == Ok("{a:1}");
  }

  /** The members of `{a: 1}` at one level of two-space indentation. */
  lemma ExpandedMembers(u: UnicodeTables, one: Number)
    ensures var env := MakeEnv(u, None, NumberSpace(2.0), None, n => "1");
      env.gap == "  " &&
      MembersText(env, [ObjectNode([Prop("a", NumV(one))])], [0], "  ", 0, ["a"], 1) == Ok(["a: 1"])
  {
    var heap := [ObjectNode([Prop("a", NumV(one))])];
    assert NodeRefsWithin(heap[0], -1, 1);
    assert BareKey(u, "a");
    assert Keys(heap[0].props) == ["a"];
    assert Lookup(heap[0].props, "a") == NumV(one);
    var expanded := MakeEnv(u, None, NumberSpace(2.0), None, n => "1");
    assert Spaces(2) == "  ";
    assert MemberText(expanded, "a", "1") == "a: 1";
    assert PropertyText(expanded, heap, [0], "  ", NumV(one)) == Ok(Some("1"));
    assert MembersText(expanded, heap, [0], "  ", 0, ["a"], 0) == Ok([]);
    MembersNext(expanded, heap, [0], "  ", 0, ["a"], 0, [], PropertyText(expanded, heap, [0], "  ", NumV(one)));
    assert [] + ["a: 1"] == ["a: 1"];
  }

  /** `stringify({a: 1}, null, 2)` is `{`, the line `  a: 1,` and `}`. */
  lemma ExpandedObjectExample(u: UnicodeTables, one: Number)
    ensures StringifyText(MakeEnv(u, None, NumberSpace(2.0), None, n => "1"), [ObjectNode([Prop("a", NumV(one))])], Ref(0))
      == Ok(Some("{\n  a: 1,\n}"))
  {
    var heap := [ObjectNode([Prop("a", NumV(one))])];
    assert NodeRefsWithin(heap[0], -1, 1);
    var expanded := MakeEnv(u, None, NumberSpace(2.0), None, n => "1");
    ExpandedMembers(u, one);
    assert Keys(heap[0].props) == ["a"];
    assert ObjectKeys(expanded, heap[0].props) == ["a"];
    assert Layout('{', '}', ["a: 1"], "  ", "", "  ") == "{\n  a: 1,\n}";
    assert [] + [0] == [0];
    assert "" + "  " == "  ";
    assert ContainerText(expanded, heap, [], "", 0) == Ok("{\n  a: 1,\n}");
  }
}
