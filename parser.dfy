/** The structural parser of the bundled JSON5 codec: `parse`, the `parseStates`
    handlers, `push`, `pop`, and the reviver pass `internalize`.

    The source keeps the parser's state in module-level variables (`source`,
    `parseState`, `stack`, `pos`, `line`, `column`, `key`, `root`, and the lexer's
    `lexState`, `buffer`, `doubleQuote`, `sign`); here they are the fields of a
    Parser object. Containers are nodes of `heap`; `stack` holds the heap indices
    of the open containers, innermost last. */
module Json5Parser {
  import opened Wrappers
  import opened Json5Util
  import opened Json5Values
  import opened Json5Lexer
  import opened Json5LexerSound
  import opened Json5Tree

  /** A value a reviver may put in place of another: a scalar other than
      `undefined` (returning `undefined` is a deletion). */
  type Replacement = s: Slot | !s.Ref? && !s.Absent? witness NullV

  /** What a reviver asks for a member: keep the value, delete the member (the
      reviver returned `undefined`), or replace the value. */
  datatype ReviverAction = Keep | Delete | Replace(value: Replacement)

  /** `reviver.call(holder, key, value)`. */
  type Reviver = (string, Slot) -> ReviverAction

  predicate IsContainerToken(k: TokenKind) {
    k == Punctuator('{') || k == Punctuator('[')
  }

  /** The value `push()` attaches for a token; a container is the fresh node at
      index `next`. */
  function TokenValue(k: TokenKind, next: nat): Slot
    requires IsValueToken(k)
  {
    match k
    case Punctuator(_) => Ref(next)
    case NullToken => NullV
    case BooleanToken(b) => BoolV(b)
    case Numeric(n) => NumV(n)
    case StringToken(s) => StrV(s)
  }

  function NewContainer(k: TokenKind): Node {
    if k == Punctuator('[') then ArrayNode([]) else ObjectNode([])
  }

  predicate StackInHeap(heap: Heap, stack: seq<nat>) {
    forall i :: 0 <= i < |stack| ==> stack[i] < |heap|
  }

  /** The state after a value is complete: `end` with no open container,
      `afterArrayValue` inside an array, `afterPropertyValue` inside an object. */
  function StateAfterValue(heap: Heap, stack: seq<nat>): ParseState
    requires StackInHeap(heap, stack)
  {
    if stack == [] then End
    else if heap[stack[|stack| - 1]].ArrayNode? then AfterArrayValue
    else AfterPropertyValue
  }

  /** Attach a value to the innermost container: `parent.push(value)` for an array,
      `parent[key] = value` for an object. */
  function Attach(n: Node, key: Option<string>, value: Slot): (r: Node)
    requires n.ObjectNode? ==> key.Some?
    ensures r.ArrayNode? == n.ArrayNode?
    ensures r.ArrayNode? ==> r.items == n.items + [value]
    ensures r.ObjectNode? ==> Lookup(r.props, key.value) == value
    ensures r.ObjectNode? && DistinctKeys(n.props) ==> DistinctKeys(r.props)
  {
    match n
    case ArrayNode(items) => ArrayNode(items + [value])
    case ObjectNode(props) => ObjectNode(SetProp(props, key.value, value))
  }

  /** An update that keeps or drops the node's own slots and adds only `value`
      keeps the node's references in bounds. */
  lemma PropsUpdateWithin(props: seq<Prop>, r: seq<Prop>, key: string, value: Slot, lo: int, hi: int)
    requires NodeRefsWithin(ObjectNode(props), lo, hi)
    requires value.Ref? ==> lo < value.id < hi
    requires forall i :: 0 <= i < |r| ==> r[i] == Prop(key, value) || r[i] in props
    ensures NodeRefsWithin(ObjectNode(r), lo, hi)
  {
    var n := ObjectNode(props);
    forall i | 0 <= i < |Children(ObjectNode(r))| && Children(ObjectNode(r))[i].Ref?
      ensures lo < Children(ObjectNode(r))[i].id < hi
    {
      assert Children(ObjectNode(r))[i] == r[i].val;
      if r[i] != Prop(key, value) {
        var j :| 0 <= j < |props| && props[j] == r[i];
        assert Children(n)[j] == r[i].val;
      }
    }
  }

  lemma AttachWithin(n: Node, key: Option<string>, value: Slot, lo: int, hi: int)
    requires n.ObjectNode? ==> key.Some?
    requires NodeRefsWithin(n, lo, hi)
    requires value.Ref? ==> lo < value.id < hi
    ensures NodeRefsWithin(Attach(n, key, value), lo, hi)
  {
    if n.ObjectNode? {
      PropsUpdateWithin(n.props, SetProp(n.props, key.value, value), key.value, value, lo, hi);
    } else {
      var a := Attach(n, key, value);
      forall i | 0 <= i < |Children(a)| && Children(a)[i].Ref? ensures lo < Children(a)[i].id < hi {
        if i < |n.items| { assert Children(a)[i] == Children(n)[i]; }
      }
    }
  }

  /** Replacing one node by a node whose references point later (and whose keys
      are distinct) keeps the heap ordered and its objects well formed. */
  /** Storing a revived slot into an array keeps the heap's shape: the slot is
      either the one already there or not a reference. */
  lemma ArrayStoreKeepsShape(h: Heap, id: nat, i: nat, revived: Slot)
    requires Ordered(h) && ObjectsWellFormed(h) && Tree(h) && id < |h| && h[id].ArrayNode?
    requires i < |h[id].items| && (revived.Ref? ==> revived == h[id].items[i])
    ensures Ordered(h[id := ArrayNode(h[id].items[i := revived])])
    ensures ObjectsWellFormed(h[id := ArrayNode(h[id].items[i := revived])])
    ensures Tree(h[id := ArrayNode(h[id].items[i := revived])])
  {
    var updated := ArrayNode(h[id].items[i := revived]);
    assert NodeOrdered(h, id);
    assert NodeRefsWithin(updated, id, |h|) by {
      forall j | 0 <= j < |Children(updated)| && Children(updated)[j].Ref?
        ensures id < Children(updated)[j].id < |h|
      {
        assert Children(updated)[j] == if j == i then revived else Children(h[id])[j];
      }
    }
    ReplaceKeepsShape(h, id, updated);
    if revived.Ref? {
      assert updated == h[id];
    } else {
      ArraySlotKeepsTree(h, id, i, revived);
    }
  }

  lemma ReplaceKeepsShape(heap: Heap, id: nat, n: Node)
    requires Ordered(heap) && ObjectsWellFormed(heap) && id < |heap|
    requires NodeRefsWithin(n, id, |heap|) && (n.ObjectNode? ==> DistinctKeys(n.props))
    ensures Ordered(heap[id := n]) && ObjectsWellFormed(heap[id := n])
  {
    var h := heap[id := n];
    forall m | 0 <= m < |h| ensures NodeOrdered(h, m) && NodeWellFormed(h, m) {
      if m != id { assert NodeOrdered(heap, m) && NodeWellFormed(heap, m); }
    }
  }

  /** Allocating an empty container keeps the heap ordered and well formed. */
  lemma GrowKeepsShape(heap: Heap, n: Node)
    requires Ordered(heap) && ObjectsWellFormed(heap) && Children(n) == []
    ensures Ordered(heap + [n]) && ObjectsWellFormed(heap + [n])
  {
    var h := heap + [n];
    forall m | 0 <= m < |h| ensures NodeOrdered(h, m) && NodeWellFormed(h, m) {
      if m < |heap| {
        assert h[m] == heap[m];
        assert NodeOrdered(heap, m) && NodeWellFormed(heap, m);
      } else if n.ObjectNode? {
        assert n.props == [];
      }
    }
  }

  /** Attaching a reference no slot holds yet keeps the heap a tree. */
  lemma AttachKeepsTree(heap: Heap, id: nat, key: Option<string>, value: Slot)
    requires Tree(heap) && id < |heap| && FreshSlot(heap, value)
    requires heap[id].ObjectNode? ==> key.Some? && DistinctKeys(heap[id].props)
    ensures Tree(heap[id := Attach(heap[id], key, value)])
  {
    if heap[id].ArrayNode? {
      ArrayAppendKeepsTree(heap, id, value);
    } else {
      ObjectUpdateKeepsTree(heap, id, SetProp(heap[id].props, key.value, value), key.value, value);
    }
  }

  /** The parse state agrees with the innermost open container: none at the
      start and the end, an array in the array states, an object in the object
      states. */
  predicate StateMatchesStack(heap: Heap, stack: seq<nat>, ps: ParseState)
    requires StackInHeap(heap, stack)
  {
    match ps
    case Start => stack == []
    case End => stack == []
    case BeforeArrayValue => stack != [] && heap[stack[|stack| - 1]].ArrayNode?
    case AfterArrayValue => stack != [] && heap[stack[|stack| - 1]].ArrayNode?
    case _ => stack != [] && heap[stack[|stack| - 1]].ObjectNode?
  }

  /** The state after a value always agrees with the stack. */
  lemma StateAfterValueMatches(heap: Heap, stack: seq<nat>)
    requires StackInHeap(heap, stack)
    ensures StateMatchesStack(heap, stack, StateAfterValue(heap, stack))
  {
  }

  /** The shape the parse states promise about the heap, the stack of open
      containers, the root and the pending key. */
  ghost predicate Shape(heap: Heap, stack: seq<nat>, root: Option<Slot>, key: Option<string>, ps: ParseState) {
    StackInHeap(heap, stack) && Ordered(heap) && ObjectsWellFormed(heap) && Tree(heap) &&
    (root.Some? ==> SlotInRange(heap, root.value)) &&
    (ps == Start <==> root.None?) &&
    StateMatchesStack(heap, stack, ps) &&
    (ps == AfterPropertyName || ps == BeforePropertyValue ==> key.Some?)
  }

  /** The heap, stack, root and parse state `push()` leaves behind. */
  datatype Pushed = Pushed(heap: Heap, stack: seq<nat>, root: Option<Slot>, state: ParseState)

  function PushResult(heap: Heap, stack: seq<nat>, root: Option<Slot>, key: Option<string>, k: TokenKind): Pushed
    requires StackInHeap(heap, stack) && IsValueToken(k)
    requires root.Some? ==> stack != [] && (heap[stack[|stack| - 1]].ObjectNode? ==> key.Some?)
  {
    var value := TokenValue(k, |heap|);
    var grown := if IsContainerToken(k) then heap + [NewContainer(k)] else heap;
    var newHeap := if root.None? then grown
                   else grown[stack[|stack| - 1] := Attach(grown[stack[|stack| - 1]], key, value)];
    var newRoot := if root.None? then Some(value) else root;
    if IsContainerToken(k) then
      Pushed(newHeap, stack + [|heap|], newRoot,
             if k == Punctuator('[') then BeforeArrayValue else BeforePropertyName)
    else
      Pushed(newHeap, stack, newRoot, StateAfterValue(newHeap, stack))
  }

  /** `push()` keeps the heap ordered, well formed and a tree; it changes no
      node's kind and allocates the new container at the end. */
  lemma PushKeepsHeapShape(heap: Heap, stack: seq<nat>, root: Option<Slot>, key: Option<string>, k: TokenKind)
    requires StackInHeap(heap, stack) && Ordered(heap) && ObjectsWellFormed(heap) && Tree(heap)
    requires IsValueToken(k)
    requires root.Some? ==> stack != [] && (heap[stack[|stack| - 1]].ObjectNode? ==> key.Some?)
    ensures var h := PushResult(heap, stack, root, key, k).heap;
      Ordered(h) && ObjectsWellFormed(h) && Tree(h) &&
      |h| == (if IsContainerToken(k) then |heap| + 1 else |heap|) &&
      (forall n :: 0 <= n < |heap| ==> h[n].ArrayNode? == heap[n].ArrayNode?) &&
      (IsContainerToken(k) ==> h[|heap|] == NewContainer(k))
  {
    var value := TokenValue(k, |heap|);
    var grown := if IsContainerToken(k) then heap + [NewContainer(k)] else heap;
    if IsContainerToken(k) {
      GrowKeepsShape(heap, NewContainer(k));
      GrowKeepsTree(heap, NewContainer(k));
    }
    assert FreshSlot(grown, value);
    if root.Some? {
      var parent := stack[|stack| - 1];
      assert NodeOrdered(grown, parent) && NodeWellFormed(grown, parent);
      AttachWithin(grown[parent], key, value, parent, |grown|);
      ReplaceKeepsShape(grown, parent, Attach(grown[parent], key, value));
      AttachKeepsTree(grown, parent, key, value);
    }
  }

  /** `push()` in a state that expects a value keeps the parser's shape. */
  lemma PushKeepsShape(heap: Heap, stack: seq<nat>, root: Option<Slot>, key: Option<string>, ps: ParseState, k: TokenKind)
    requires Shape(heap, stack, root, key, ps) && ValueAllowed(ps) && IsValueToken(k)
    ensures root.Some? ==> stack != [] && (heap[stack[|stack| - 1]].ObjectNode? ==> key.Some?)
    ensures var p := PushResult(heap, stack, root, key, k);
      Shape(p.heap, p.stack, p.root, key, p.state)
  {
    PushKeepsHeapShape(heap, stack, root, key, k);
    var p := PushResult(heap, stack, root, key, k);
    assert StackInHeap(p.heap, stack);
    if !IsContainerToken(k) {
      StateAfterValueMatches(p.heap, stack);
    }
  }

  // ---------------------------------------------------------------- parse states

  /** The parser's variables the parse states read and write. */
  datatype Config = Config(heap: Heap, stack: seq<nat>, root: Option<Slot>, key: Option<string>, state: ParseState)

  ghost predicate ConfigShape(c: Config) {
    Shape(c.heap, c.stack, c.root, c.key, c.state)
  }

  /** What `parse()` starts from: state `start`, nothing open, no key, no root. */
  const Initial := Config([], [], None, None, Start)

  /** An `eof` token before the value is complete: `invalidEOF()`. */
  predicate EarlyEof(ps: ParseState, k: TokenKind) {
    k.Eof? && ps != End
  }

  /** `push()` on a configuration; the key is left as it was. */
  function PushConfig(c: Config, k: TokenKind): (r: Config)
    requires ConfigShape(c) && ValueAllowed(c.state) && IsValueToken(k)
    ensures ConfigShape(r)
  {
    PushKeepsShape(c.heap, c.stack, c.root, c.key, c.state, k);
    var p := PushResult(c.heap, c.stack, c.root, c.key, k);
    Config(p.heap, p.stack, p.root, c.key, p.state)
  }

  /** `pop()` on a configuration. */
  function PopConfig(c: Config): (r: Config)
    requires ConfigShape(c) && c.stack != []
    ensures ConfigShape(r)
  {
    var stack := c.stack[..|c.stack| - 1];
    StateAfterValueMatches(c.heap, stack);
    c.(stack := stack, state := StateAfterValue(c.heap, stack))
  }

  /** `parseStates[state]()` for a token the state does not reject. Only a
      pushed value changes the heap or the root, and only a property name
      changes the pending key. */
  function Handle(c: Config, k: TokenKind): (r: Config)
    requires ConfigShape(c) && TokenFits(c.state, k) && !EarlyEof(c.state, k)
    ensures ConfigShape(r)
    ensures ValueAllowed(c.state) && IsValueToken(k) ==>
      Pushed(r.heap, r.stack, r.root, r.state) == PushResult(c.heap, c.stack, c.root, c.key, k) && r.key == c.key
    ensures !(ValueAllowed(c.state) && IsValueToken(k)) ==> r.heap == c.heap && r.root == c.root
    ensures r.key != c.key ==> c.state == BeforePropertyName && (k.Identifier? || k.StringToken?)
    ensures c.state == End ==> r == c
  {
    match c.state
    case Start => PushConfig(c, k)
    case BeforePropertyName =>
      if k.Identifier? then c.(key := Some(k.name), state := AfterPropertyName)
      else if k.StringToken? then c.(key := Some(k.text), state := AfterPropertyName)
      else PopConfig(c)
    case AfterPropertyName => c.(state := BeforePropertyValue)
    case BeforePropertyValue => PushConfig(c, k)
    case BeforeArrayValue => if k == Punctuator(']') then PopConfig(c) else PushConfig(c, k)
    case AfterPropertyValue => if k == Punctuator(',') then c.(state := BeforePropertyName) else PopConfig(c)
    case AfterArrayValue => if k == Punctuator(',') then c.(state := BeforeArrayValue) else PopConfig(c)
    case End => c
  }

  /** The loop of `parse()`: read a token with `lex()` and hand it to the
      current parse state, until `eof` has been handled or an error is thrown.
      A successful run ends in state `end` with nothing open and a root. */
  function Run(u: UnicodeTables, src: string, c: Config, cur: Cursor): (r: Result<Config, SyntaxError>)
    requires ConfigShape(c) && cur.pos <= |src|
    ensures r.Ok? ==> ConfigShape(r.value) && r.value.state == End && r.value.stack == [] && r.value.root.Some?
    decreases |src| - cur.pos
  {
    NextTokenSound(u, src, c.state, cur);
    match NextToken(u, src, c.state, cur)
    case Err(e) => Err(e)
    case Ok((t, next)) =>
      if EarlyEof(c.state, t.kind) then Err(SyntaxError(InvalidEndOfInput, next.line, next.column))
      else if t.kind.Eof? then Ok(Handle(c, t.kind))
      else Run(u, src, Handle(c, t.kind), next)
  }

  // ---------------------------------------------------------------- reviver

  function ReviveSlot(a: ReviverAction, s: Slot): Slot {
    match a
    case Keep => s
    case Delete => Absent
    case Replace(x) => x
  }

  /** What the reviver answers is the slot itself, `undefined` or a value that
      holds no reference. */
  lemma ReviveSlotInRange(heap: Heap, a: ReviverAction, s: Slot)
    requires SlotInRange(heap, s)
    ensures SlotInRange(heap, ReviveSlot(a, s))
  {
  }

  function DigitChar(d: nat): char
    requires d < 10
  {
    ('0' as int + d) as char
  }

  /** The number a string of decimal digits denotes. */
  function DecimalValue(s: string): nat
    requires forall i :: 0 <= i < |s| ==> IsDigit(s[i])
  {
    if s == [] then 0
    else
      assert IsDigit(s[|s| - 1]);
      DecimalValue(s[..|s| - 1]) * 10 + (s[|s| - 1] as int - '0' as int)
  }

  /** `String(i)` for an array index: its decimal digits, without leading zeros. */
  function NatToString(n: nat): (s: string)
    ensures |s| > 0 && forall i :: 0 <= i < |s| ==> IsDigit(s[i])
    ensures DecimalValue(s) == n
    ensures |s| > 1 ==> s[0] != '0'
    decreases n
  {
    if n < 10 then [DigitChar(n)]
    else
      var s := NatToString(n / 10) + [DigitChar(n % 10)];
      assert s[..|s| - 1] == NatToString(n / 10);
      s
  }

  /** What the reviver pass leaves at array index i: holes stay holes (for-in skips
      them); otherwise the reviver's answer for the key String(i). */
  function ReviveItem(reviver: Reviver, i: nat, s: Slot): Slot {
    if s.Absent? then Absent else ReviveSlot(reviver(NatToString(i), s), s)
  }

  function ReviveMember(reviver: Reviver, p: Prop): seq<Prop> {
    match reviver(p.key, p.val)
    case Delete => []
    case Keep => [p]
    case Replace(x) => [Prop(p.key, x)]
  }

  /** The properties left after the reviver pass has visited each of them in
      order: deleted ones are gone, replaced ones keep their place. */
  function ReviveProps(reviver: Reviver, props: seq<Prop>): (r: seq<Prop>)
    ensures |r| <= |props|
    decreases |props|
  {
    if props == [] then []
    else ReviveProps(reviver, props[..|props| - 1]) + ReviveMember(reviver, props[|props| - 1])
  }

  /** Every reference among the properties points strictly between lo and hi. */
  predicate PropsRefsWithin(props: seq<Prop>, lo: int, hi: int) {
    forall j :: 0 <= j < |props| && props[j].val.Ref? ==> lo < props[j].val.id < hi
  }

  lemma ObjectRefsWithin(props: seq<Prop>, lo: int, hi: int)
    ensures NodeRefsWithin(ObjectNode(props), lo, hi) <==> PropsRefsWithin(props, lo, hi)
  {
    var cs := Children(ObjectNode(props));
    assert forall j :: 0 <= j < |props| ==> cs[j] == props[j].val;
  }

  /** A key absent from an object stays absent after the reviver pass. */
  lemma {:induction false} ReviveAvoidsKey(reviver: Reviver, props: seq<Prop>, k: string)
    requires forall j :: 0 <= j < |props| ==> props[j].key != k
    ensures forall j :: 0 <= j < |ReviveProps(reviver, props)| ==> ReviveProps(reviver, props)[j].key != k
    decreases |props|
  {
    if props != [] {
      var init := props[..|props| - 1];
      var last := props[|props| - 1];
      assert forall j :: 0 <= j < |init| ==> init[j] == props[j];
      ReviveAvoidsKey(reviver, init, k);
      var done := ReviveProps(reviver, init);
      var r := done + ReviveMember(reviver, last);
      forall j | 0 <= j < |r| ensures r[j].key != k {
        if j < |done| { assert r[j] == done[j]; }
      }
    }
  }

  /** The reviver pass introduces no reference: it can only keep or drop them. */
  lemma {:induction false} ReviveRefsWithin(reviver: Reviver, props: seq<Prop>, lo: int, hi: int)
    requires PropsRefsWithin(props, lo, hi)
    ensures PropsRefsWithin(ReviveProps(reviver, props), lo, hi)
    decreases |props|
  {
    if props != [] {
      var init := props[..|props| - 1];
      var last := props[|props| - 1];
      assert forall j :: 0 <= j < |init| ==> init[j] == props[j];
      ReviveRefsWithin(reviver, init, lo, hi);
      var done := ReviveProps(reviver, init);
      var r := done + ReviveMember(reviver, last);
      forall j | 0 <= j < |r| && r[j].val.Ref? ensures lo < r[j].val.id < hi {
        if j < |done| { assert r[j] == done[j]; }
      }
    }
  }

  /** The reviver pass keeps an object's keys distinct. */
  lemma {:induction false} ReviveKeepsKeysDistinct(reviver: Reviver, props: seq<Prop>)
    requires DistinctKeys(props)
    ensures DistinctKeys(ReviveProps(reviver, props))
    decreases |props|
  {
    if props != [] {
      var init := props[..|props| - 1];
      var last := props[|props| - 1];
      assert forall j :: 0 <= j < |init| ==> init[j] == props[j];
      ReviveKeepsKeysDistinct(reviver, init);
      ReviveAvoidsKey(reviver, init, last.key);
      var done := ReviveProps(reviver, init);
      var r := done + ReviveMember(reviver, last);
      forall a, b | 0 <= a < b < |r| ensures r[a].key != r[b].key {
        assert r[a] == done[a];
        if b < |done| { assert r[b] == done[b]; }
      }
    }
  }

  /** Apply the reviver's answer for member `key` of an object:
      `delete value[key]` or `value[key] = replacement`. */
  function ApplyAction(props: seq<Prop>, key: string, action: ReviverAction, current: Slot): seq<Prop> {
    if action.Delete? then RemoveProp(props, key) else SetProp(props, key, ReviveSlot(action, current))
  }

  /** The node after the reviver pass over its own members. */
  function ReviveNode(reviver: Reviver, n: Node): Node {
    match n
    case ArrayNode(items) =>
      ArrayNode(seq(|items|, i requires 0 <= i < |items| => ReviveItem(reviver, i, items[i])))
    case ObjectNode(props) => ObjectNode(ReviveProps(reviver, props))
  }

  /** Part way through the pass, the object still has distinct keys. */
  lemma RevivedDistinct(reviver: Reviver, props0: seq<Prop>, i: nat)
    requires DistinctKeys(props0) && i <= |props0|
    ensures DistinctKeys(ReviveProps(reviver, props0[..i]) + props0[i..])
  {
    var done := ReviveProps(reviver, props0[..i]);
    var rest := props0[i..];
    var now := done + rest;
    ReviveKeepsKeysDistinct(reviver, props0[..i]);
    forall a, b | 0 <= a < b < |now| ensures now[a].key != now[b].key {
      if b < |done| {
        assert now[a] == done[a] && now[b] == done[b];
      } else if a < |done| {
        var k := rest[b - |done|].key;
        assert rest[b - |done|] == props0[i + b - |done|];
        ReviveAvoidsKey(reviver, props0[..i], k);
        assert now[a] == done[a] && now[b] == rest[b - |done|];
      } else {
        assert now[a] == props0[i + a - |done|] && now[b] == props0[i + b - |done|];
      }
    }
  }

  /** Part way through the pass, the object holds only references it had at the
      start. */
  lemma RevivedWithin(reviver: Reviver, props0: seq<Prop>, i: nat, lo: int, hi: int)
    requires i <= |props0| && NodeRefsWithin(ObjectNode(props0), lo, hi)
    ensures NodeRefsWithin(ObjectNode(ReviveProps(reviver, props0[..i]) + props0[i..]), lo, hi)
  {
    var done := ReviveProps(reviver, props0[..i]);
    var rest := props0[i..];
    var now := done + rest;
    ObjectRefsWithin(props0, lo, hi);
    assert PropsRefsWithin(props0[..i], lo, hi) by {
      assert forall j :: 0 <= j < i ==> props0[..i][j] == props0[j];
    }
    ReviveRefsWithin(reviver, props0[..i], lo, hi);
    forall j | 0 <= j < |now| && now[j].val.Ref? ensures lo < now[j].val.id < hi {
      if j < |done| {
        assert now[j] == done[j];
      } else {
        assert now[j] == props0[i + j - |done|];
      }
    }
    ObjectRefsWithin(now, lo, hi);
  }

  /** No member revived so far has the key of the next member to visit. */
  lemma RevivedKeysBefore(reviver: Reviver, props0: seq<Prop>, i: nat)
    requires DistinctKeys(props0) && i < |props0|
    ensures forall j :: 0 <= j < |ReviveProps(reviver, props0[..i])| ==>
      ReviveProps(reviver, props0[..i])[j].key != props0[i].key
  {
    assert forall j :: 0 <= j < i ==> props0[..i][j] == props0[j];
    ReviveAvoidsKey(reviver, props0[..i], props0[i].key);
  }

  /** After the first i members have been visited, the object holds the revived
      prefix followed by the untouched rest, and the next visit finds its
      member's original value, at the end of the revived prefix. */
  lemma ReviveFinds(reviver: Reviver, props0: seq<Prop>, i: nat)
    requires DistinctKeys(props0) && i < |props0|
    ensures Lookup(ReviveProps(reviver, props0[..i]) + props0[i..], props0[i].key) == props0[i].val
  {
    var done := ReviveProps(reviver, props0[..i]);
    var p := props0[i];
    var rest := props0[i + 1..];
    assert props0[i..] == [p] + rest;
    RevivedKeysBefore(reviver, props0, i);
    var now := done + props0[i..];
    assert now == done + [p] + rest;
    SetPropInPlace(done, p, rest, p.val);
  }

  /** Applying the reviver's answer for the next member extends the revived
      prefix by one. */
  lemma ReviveStep(reviver: Reviver, props0: seq<Prop>, i: nat)
    requires DistinctKeys(props0) && i < |props0|
    ensures var now := ReviveProps(reviver, props0[..i]) + props0[i..];
      var p := props0[i];
      ApplyAction(now, p.key, reviver(p.key, p.val), p.val) ==
        ReviveProps(reviver, props0[..i + 1]) + props0[i + 1..]
  {
    var done := ReviveProps(reviver, props0[..i]);
    var p := props0[i];
    var rest := props0[i + 1..];
    assert props0[i..] == [p] + rest;
    assert props0[..i + 1][..i] == props0[..i];
    assert props0[..i + 1][i] == p;
    RevivedKeysBefore(reviver, props0, i);
    assert done + props0[i..] == done + [p] + rest;
    if reviver(p.key, p.val).Delete? {
      RemovePropInPlace(done, p, rest);
    } else {
      SetPropInPlace(done, p, rest, ReviveSlot(reviver(p.key, p.val), p.val));
    }
  }

  /** One visit of the loop over an object's keys turns the heap into one that
      holds the longer revived prefix and is still ordered and well formed. */
  lemma VisitKeepsShape(heap: Heap, id: nat, props0: seq<Prop>, i: nat, reviver: Reviver)
    requires Ordered(heap) && ObjectsWellFormed(heap) && id < |heap|
    requires DistinctKeys(props0) && i < |props0| && NodeRefsWithin(ObjectNode(props0), id, |heap|)
    requires heap[id] == ObjectNode(ReviveProps(reviver, props0[..i]) + props0[i..])
    ensures var p := props0[i];
      var updated := ObjectNode(ApplyAction(heap[id].props, p.key, reviver(p.key, p.val), p.val));
      updated == ObjectNode(ReviveProps(reviver, props0[..i + 1]) + props0[i + 1..]) &&
      Ordered(heap[id := updated]) && ObjectsWellFormed(heap[id := updated])
  {
    ReviveStep(reviver, props0, i);
    RevivedDistinct(reviver, props0, i + 1);
    RevivedWithin(reviver, props0, i + 1, id, |heap|);
    ReplaceKeepsShape(heap, id, ObjectNode(ReviveProps(reviver, props0[..i + 1]) + props0[i + 1..]));
  }

  /** `after` is `before` with every container of the subtree `s` refers to
      revived (each by the reviver pass over its own members) and every other
      container unchanged. When `s` is not a container nothing changes. */
  ghost predicate RevivedSubtree(reviver: Reviver, before: Heap, after: Heap, s: Slot)
    requires Ordered(before) && SlotInRange(before, s)
  {
    |after| == |before| &&
    forall m :: 0 <= m < |before| ==>
      after[m] == if s.Ref? && InSubtree(before, s.id, m) then ReviveNode(reviver, before[m]) else before[m]
  }

  /** Part way through the loop over node id's slots: the subtrees of the first
      n slots are revived, and every other node except id itself is unchanged. */
  ghost predicate RevivedChildren(reviver: Reviver, heap: Heap, h: Heap, id: nat, n: nat)
    requires Ordered(heap) && id < |heap| && n <= |Children(heap[id])|
  {
    |h| == |heap| &&
    forall m :: 0 <= m < |heap| && m != id ==>
      h[m] == if InChildSubtree(heap, id, n, m) then ReviveNode(reviver, heap[m]) else heap[m]
  }

  /** Reviving the subtree of slot n of node id, in a heap where the subtrees of
      the earlier slots are already revived, extends the revived part by one
      slot and leaves node id alone. In a tree, the subtree of slot n is still
      untouched at that point. */
  lemma ReviveChildStep(reviver: Reviver, heap: Heap, h: Heap, h2: Heap, id: nat, n: nat)
    requires Ordered(heap) && Tree(heap) && id < |heap| && NodeOrdered(heap, id)
    requires n < |Children(heap[id])| && Ordered(h) && RevivedChildren(reviver, heap, h, id, n)
    requires RevivedSubtree(reviver, h, h2, Children(heap[id])[n])
    ensures RevivedChildren(reviver, heap, h2, id, n + 1) && h2[id] == h[id]
  {
    var c := Children(heap[id])[n];
    if c.Ref? {
      forall x | 0 <= x < |heap| && InSubtree(heap, c.id, x) ensures h[x] == heap[x] {
        SubtreeBounds(heap, c.id, x);
        forall j | 0 <= j < n && Children(heap[id])[j].Ref?
          ensures !InSubtree(heap, Children(heap[id])[j].id, x)
        {
          SiblingsDisjoint(heap, id, n, j, x);
        }
      }
      forall m | 0 <= m < |heap| ensures InSubtree(h, c.id, m) <==> InSubtree(heap, c.id, m) {
        SubtreeFrame(heap, h, c.id, m);
      }
      SubtreeBounds(heap, c.id, id);
    }
    forall m | 0 <= m < |heap| && m != id
      ensures h2[m] == if InChildSubtree(heap, id, n + 1, m) then ReviveNode(reviver, heap[m]) else heap[m]
    {
      InChildSubtreeNext(heap, id, n, m);
    }
  }

  /** A visit of slot n followed by a store into node id: what the loops of
      InternalizeArray and InternalizeObject do on each turn. */
  lemma ReviveChildStore(reviver: Reviver, heap: Heap, h: Heap, h2: Heap, id: nat, n: nat, node: Node)
    requires Ordered(heap) && Tree(heap) && id < |heap| && NodeOrdered(heap, id)
    requires n < |Children(heap[id])| && Ordered(h) && RevivedChildren(reviver, heap, h, id, n)
    requires RevivedSubtree(reviver, h, h2, Children(heap[id])[n])
    ensures RevivedChildren(reviver, heap, h2[id := node], id, n + 1) && h2[id] == h[id]
  {
    ReviveChildStep(reviver, heap, h, h2, id, n);
    RevivedChildrenStore(reviver, heap, h2, id, n + 1, node);
  }

  /** Storing into node id keeps what the loop over its slots has revived. */
  lemma RevivedChildrenStore(reviver: Reviver, heap: Heap, h: Heap, id: nat, n: nat, node: Node)
    requires Ordered(heap) && id < |heap| && n <= |Children(heap[id])|
    requires RevivedChildren(reviver, heap, h, id, n)
    ensures RevivedChildren(reviver, heap, h[id := node], id, n)
  {
  }

  /** Once every slot of node id has been visited, its whole subtree is revived. */
  lemma RevivedAllChildren(reviver: Reviver, heap: Heap, h: Heap, id: nat)
    requires Ordered(heap) && id < |heap| && RevivedChildren(reviver, heap, h, id, |Children(heap[id])|)
    requires h[id] == ReviveNode(reviver, heap[id])
    ensures RevivedSubtree(reviver, heap, h, Ref(id))
  {
  }

  /** The reviver pass over node `id` and everything below it (the loop in
      `internalize`): each member is first revived itself, then the reviver's
      answer for it deletes or replaces it in place. The containers are
      updated in place in the source; here the heap holding them is threaded
      through. */
  method InternalizeNode(heap: Heap, id: nat, reviver: Reviver) returns (h: Heap)
    requires Ordered(heap) && ObjectsWellFormed(heap) && Tree(heap) && id < |heap|
    ensures Ordered(h) && ObjectsWellFormed(h) && Tree(h)
    ensures RevivedSubtree(reviver, heap, h, Ref(id))
    decreases |heap| - id, 3
  {
    if heap[id].ArrayNode? {
      h := InternalizeArray(heap, id, reviver);
    } else {
      h := InternalizeObject(heap, id, reviver);
    }
  }

  /** `for (const key in value)` over an array: holes are skipped, element i is
      visited under the key String(i). */
  method InternalizeArray(heap: Heap, id: nat, reviver: Reviver) returns (h: Heap)
    requires Ordered(heap) && ObjectsWellFormed(heap) && Tree(heap) && id < |heap| && heap[id].ArrayNode?
    ensures Ordered(h) && ObjectsWellFormed(h) && Tree(h)
    ensures RevivedSubtree(reviver, heap, h, Ref(id))
    decreases |heap| - id, 2
  {
    h := heap;
    var items0 := heap[id].items;
    assert NodeOrdered(heap, id);
    assert RevivedItems(reviver, items0, 0) == items0;
    var i := 0;
    while i < |items0|
      invariant 0 <= i <= |items0|
      invariant Ordered(h) && ObjectsWellFormed(h) && Tree(h)
      invariant RevivedChildren(reviver, heap, h, id, i)
      invariant h[id] == ArrayNode(RevivedItems(reviver, items0, i))
    {
      var updated;
      ghost var before := h;
      h, updated := VisitItem(h, id, items0, i, reviver);
      ReviveChildStore(reviver, heap, before, h, id, i, updated);
      h := h[id := updated];
      i := i + 1;
    }
    assert h[id].items == ReviveNode(reviver, heap[id]).items;
    RevivedAllChildren(reviver, heap, h, id);
  }

  /** The array part way through the pass: the first i elements revived. */
  function RevivedItems(reviver: Reviver, items0: seq<Slot>, i: nat): seq<Slot> {
    seq(|items0|, j requires 0 <= j < |items0| => if j < i then ReviveItem(reviver, j, items0[j]) else items0[j])
  }

  /** One turn of the loop over an array: a hole is skipped; otherwise the
      element's subtree is revived, then the reviver's answer for it deletes
      or replaces it, which the caller stores. */
  method VisitItem(heap: Heap, id: nat, items0: seq<Slot>, i: nat, reviver: Reviver)
    returns (h: Heap, updated: Node)
    requires Ordered(heap) && ObjectsWellFormed(heap) && Tree(heap) && id < |heap|
    requires i < |items0| && heap[id] == ArrayNode(RevivedItems(reviver, items0, i))
    ensures Ordered(h) && ObjectsWellFormed(h) && Tree(h)
    ensures SlotInRange(heap, items0[i]) && RevivedSubtree(reviver, heap, h, items0[i]) && h[id] == heap[id]
    ensures updated == ArrayNode(RevivedItems(reviver, items0, i + 1))
    ensures Ordered(h[id := updated]) && ObjectsWellFormed(h[id := updated]) && Tree(h[id := updated])
    decreases |heap| - id, 1
  {
    var child := heap[id].items[i];
    assert child == items0[i] && NodeOrdered(heap, id) && Children(heap[id])[i] == child;
    assert RevivedItems(reviver, items0, i)[i := ReviveItem(reviver, i, child)] == RevivedItems(reviver, items0, i + 1);
    h := heap;
    if !child.Absent? {
      h := InternalizeChild(heap, id, child, reviver);
      var revived := ReviveSlot(reviver(NatToString(i), child), child);
      updated := ArrayNode(h[id].items[i := revived]);
      ArrayStoreKeepsShape(h, id, i, revived);
    } else {
      updated := heap[id];
      assert h[id := updated] == h;
    }
  }

  /** `for (const key in value)` over an object: its own keys in order. */
  method InternalizeObject(heap: Heap, id: nat, reviver: Reviver) returns (h: Heap)
    requires Ordered(heap) && ObjectsWellFormed(heap) && Tree(heap) && id < |heap| && heap[id].ObjectNode?
    ensures Ordered(h) && ObjectsWellFormed(h) && Tree(h)
    ensures RevivedSubtree(reviver, heap, h, Ref(id))
    decreases |heap| - id, 2
  {
    h := heap;
    var props0 := heap[id].props;
    assert NodeOrdered(heap, id) && NodeWellFormed(heap, id);
    ObjectRefsWithin(props0, id, |heap|);
    RevivedEnds(reviver, props0);
    var i := 0;
    while i < |props0|
      invariant 0 <= i <= |props0|
      invariant Ordered(h) && ObjectsWellFormed(h) && Tree(h)
      invariant RevivedChildren(reviver, heap, h, id, i)
      invariant h[id] == ObjectNode(ReviveProps(reviver, props0[..i]) + props0[i..])
    {
      var updated;
      ghost var before := h;
      h, updated := VisitMember(h, id, props0, i, reviver);
      assert Children(heap[id])[i] == props0[i].val;
      ReviveChildStore(reviver, heap, before, h, id, i, updated);
      h := h[id := updated];
      i := i + 1;
    }
    RevivedAllChildren(reviver, heap, h, id);
  }

  /** One turn of the loop over an object's keys: revive the subtree of the
      member's value, then work out the object after the reviver's answer
      (delete the member or replace its value), which the caller stores. */
  method VisitMember(heap: Heap, id: nat, props0: seq<Prop>, i: nat, reviver: Reviver)
    returns (h: Heap, updated: Node)
    requires Ordered(heap) && ObjectsWellFormed(heap) && Tree(heap) && id < |heap|
    requires DistinctKeys(props0) && i < |props0| && PropsRefsWithin(props0, id, |heap|)
    requires heap[id] == ObjectNode(ReviveProps(reviver, props0[..i]) + props0[i..])
    ensures Ordered(h) && ObjectsWellFormed(h) && Tree(h)
    ensures RevivedSubtree(reviver, heap, h, props0[i].val) && h[id] == heap[id]
    ensures updated == ObjectNode(ReviveProps(reviver, props0[..i + 1]) + props0[i + 1..])
    ensures Ordered(h[id := updated]) && ObjectsWellFormed(h[id := updated]) && Tree(h[id := updated])
    decreases |heap| - id, 1
  {
    var k := props0[i].key;
    ReviveFinds(reviver, props0, i);
    var child := Lookup(heap[id].props, k);
    h := InternalizeChild(heap, id, child, reviver);
    var action := reviver(k, child);
    updated := ObjectNode(ApplyAction(h[id].props, k, action, child));
    ObjectRefsWithin(props0, id, |heap|);
    VisitKeepsShape(h, id, props0, i, reviver);
    MemberUpdateKeepsTree(h, id, props0, i, reviver);
  }

  /** The object after the reviver's answer for a member holds no reference
      it did not hold before, so the heap stays a tree. */
  lemma MemberUpdateKeepsTree(heap: Heap, id: nat, props0: seq<Prop>, i: nat, reviver: Reviver)
    requires Tree(heap) && id < |heap| && DistinctKeys(props0) && i < |props0|
    requires heap[id] == ObjectNode(ReviveProps(reviver, props0[..i]) + props0[i..])
    ensures var p := props0[i];
      Tree(heap[id := ObjectNode(ApplyAction(heap[id].props, p.key, reviver(p.key, p.val), p.val))])
  {
    var p := props0[i];
    var now := heap[id].props;
    var done := ReviveProps(reviver, props0[..i]);
    assert now[|done|] == p;
    RevivedDistinct(reviver, props0, i);
    ApplyKeepsRefs(now, p.key, reviver(p.key, p.val), p.val, |done|);
    ObjectUpdateKeepsTree(heap, id, ApplyAction(now, p.key, reviver(p.key, p.val), p.val), p.key, Absent);
  }

  /** The reviver's answer for a member keeps keys distinct and leaves only
      references the object already held. */
  lemma ApplyKeepsRefs(now: seq<Prop>, k: string, action: ReviverAction, v: Slot, pos: nat)
    requires DistinctKeys(now) && pos < |now| && now[pos] == Prop(k, v)
    ensures var r := ApplyAction(now, k, action, v);
      DistinctKeys(r) && forall j :: 0 <= j < |r| && r[j].val.Ref? ==> r[j] in now
  {
    if action.Keep? {
      assert Prop(k, ReviveSlot(action, v)) == now[pos];
    }
  }

  /** The recursive `internalize(value, key, reviver)` on a member's value:
      when it is a container, revive its subtree. The parent is not in that
      subtree and is left alone. */
  method InternalizeChild(heap: Heap, parent: nat, child: Slot, reviver: Reviver) returns (h: Heap)
    requires Ordered(heap) && ObjectsWellFormed(heap) && Tree(heap) && parent < |heap|
    requires child.Ref? ==> parent < child.id < |heap|
    ensures Ordered(h) && ObjectsWellFormed(h) && Tree(h)
    ensures RevivedSubtree(reviver, heap, h, child) && h[parent] == heap[parent]
    decreases |heap| - parent, 0
  {
    h := heap;
    if child.Ref? {
      h := InternalizeNode(heap, child.id, reviver);
      SubtreeBounds(heap, child.id, parent);
    }
  }

  /** Before the first visit nothing is revived; after the last, everything is. */
  lemma RevivedEnds(reviver: Reviver, props0: seq<Prop>)
    ensures ReviveProps(reviver, props0[..0]) + props0[0..] == props0
    ensures ReviveProps(reviver, props0[..|props0|]) + props0[|props0|..] == ReviveProps(reviver, props0)
  {
    assert props0[..0] == [];
    assert props0[..|props0|] == props0;
  }

  // ---------------------------------------------------------------- the parser

  class Parser {
    const tables: UnicodeTables
    const source: string
    var parseState: ParseState
    var stack: seq<nat>
    var cur: Cursor
    var key: Option<string>
    var root: Option<Slot>
    var heap: Heap
    var lexVars: LexVars

    /** The shape the parse states promise about the stack, the pending key and
        the root. */
    ghost predicate Valid()
      reads this
    {
      cur.pos <= |source| && Shape(heap, stack, root, key, parseState)
    }

    /** The parser's state as a configuration of the parse states. */
    function Cfg(): Config
      reads this
    {
      Config(heap, stack, root, key, parseState)
    }

    /** The state `parse()` sets up before its loop. */
    constructor(tables: UnicodeTables, text: string)
      ensures Valid()
      ensures this.tables == tables && source == text
      ensures parseState == Start && stack == [] && cur == Cursor(0, 1, 0)
      ensures key.None? && root.None? && heap == [] && lexVars == InitialVars
    {
      this.tables := tables;
      source := text;
      parseState := Start;
      stack := [];
      cur := Cursor(0, 1, 0);
      key := None;
      root := None;
      heap := [];
      lexVars := InitialVars;
    }

    /** `lex()`: run the lexer's loop from the cursor until a handler returns a
        token or throws. */
    method Lex() returns (r: Result<Token, SyntaxError>)
      requires Valid()
      modifies this
      ensures r.Ok? ==> NextToken(tables, source, parseState, old(cur)) == Ok((r.value, cur))
      ensures r.Err? ==> NextToken(tables, source, parseState, old(cur)) == Err(r.error)
      ensures parseState == old(parseState) && stack == old(stack) && key == old(key)
      ensures root == old(root) && heap == old(heap)
      ensures r.Ok? ==> Valid() && TokenSound(source, parseState, old(cur).pos, r.value, cur)
    {
      ghost var start := cur;
      NextTokenSound(tables, source, parseState, start);
      lexVars := InitialVars;
      while true
        invariant cur.pos <= |source|
        invariant Json5Lexer.Lex(tables, source, parseState, cur, lexVars) == NextToken(tables, source, parseState, start)
        invariant parseState == old(parseState) && stack == old(stack) && key == old(key)
        invariant root == old(root) && heap == old(heap)
        decreases Measure(source, cur, lexVars)
      {
        StepDecreases(tables, source, parseState, cur, lexVars);
        var step := LexStep(tables, source, parseState, cur, lexVars);
        match step
        case Continue(next, w) =>
          cur, lexVars := next, w;
        case Emit(t, next) =>
          cur := next;
          return Ok(t);
        case Throw(e) =>
          return Err(e);
      }
    }

    /** `push()`: attach the token's value to the root or to the innermost
        container; a new container is then opened. */
    method Push(t: Token)
      requires Valid() && ValueAllowed(parseState) && IsValueToken(t.kind)
      modifies this
      ensures Valid()
      ensures cur == old(cur) && key == old(key)
      ensures Pushed(heap, stack, root, parseState) ==
        PushResult(old(heap), old(stack), old(root), old(key), t.kind)
    {
      PushKeepsShape(heap, stack, root, key, parseState, t.kind);
      var p := PushResult(heap, stack, root, key, t.kind);
      heap, root, stack, parseState := p.heap, p.root, p.stack, p.state;
    }

    /** `pop()`: close the innermost container and move to the state after a
        value. */
    method Pop()
      requires Valid() && stack != []
      requires parseState in {BeforePropertyName, AfterPropertyValue, BeforeArrayValue, AfterArrayValue}
      modifies this
      ensures Valid()
      ensures stack == old(stack)[..|old(stack)| - 1] && parseState == StateAfterValue(heap, stack)
      ensures heap == old(heap) && root == old(root) && key == old(key) && cur == old(cur)
    {
      stack := stack[..|stack| - 1];
      parseState := StateAfterValue(heap, stack);
    }

    /** `parseStates[parseState]()` for the token just read. */
    method HandleToken(t: Token) returns (err: Option<SyntaxError>)
      requires Valid() && TokenFits(parseState, t.kind)
      modifies this
      ensures err.Some? <==> EarlyEof(old(parseState), t.kind)
      ensures err.Some? ==> err.value == SyntaxError(InvalidEndOfInput, cur.line, cur.column)
      ensures cur == old(cur)
      ensures err.None? ==> Valid() && Cfg() == Handle(old(Cfg()), t.kind)
    {
      err := None;
      var eofError := SyntaxError(InvalidEndOfInput, cur.line, cur.column);
      match parseState
      case Start =>
        if t.kind.Eof? { return Some(eofError); }
        Push(t);
      case BeforePropertyName => {
        match t.kind
        case Identifier(name) =>
          key := Some(name);
          parseState := AfterPropertyName;
        case StringToken(text) =>
          key := Some(text);
          parseState := AfterPropertyName;
        case Punctuator(_) =>
          Pop();
        case Eof =>
          return Some(eofError);
      }
      case AfterPropertyName =>
        if t.kind.Eof? { return Some(eofError); }
        parseState := BeforePropertyValue;
      case BeforePropertyValue =>
        if t.kind.Eof? { return Some(eofError); }
        Push(t);
      case BeforeArrayValue =>
        if t.kind.Eof? { return Some(eofError); }
        if t.kind == Punctuator(']') {
          Pop();
        } else {
          Push(t);
        }
      case AfterPropertyValue =>
        if t.kind.Eof? { return Some(eofError); }
        if t.kind == Punctuator(',') {
          parseState := BeforePropertyName;
        } else {
          Pop();
        }
      case AfterArrayValue =>
        if t.kind.Eof? { return Some(eofError); }
        if t.kind == Punctuator(',') {
          parseState := BeforeArrayValue;
        } else {
          Pop();
        }
      case End =>
    }

    /** `internalize({'': root}, '', reviver)`: revive the whole value, then ask the
        reviver about the root itself under the empty key. */
    method Internalize(reviver: Reviver) returns (r: Slot)
      requires Valid() && parseState == End
      modifies this
      ensures Valid() && |heap| == old(|heap|)
      ensures parseState == End && stack == old(stack) && cur == old(cur) && root == old(root)
      ensures key == old(key)
      ensures r == ReviveSlot(reviver("", root.value), root.value)
      ensures RevivedSubtree(reviver, old(heap), heap, root.value)
    {
      var value := root.value;
      if value.Ref? {
        heap := InternalizeNode(heap, value.id, reviver);
      }
      r := ReviveSlot(reviver("", value), value);
    }

    /** `parse(text, reviver)`: read tokens and hand each to the current parse
        state until `eof`; then run the reviver pass if there is a reviver. */
    method Parse(reviver: Option<Reviver>) returns (r: Result<Slot, SyntaxError>)
      requires Valid() && parseState == Start
      modifies this
      ensures var res := Run(tables, source, old(Cfg()), old(cur));
        (r.Ok? <==> res.Ok?) && (r.Err? ==> res == Err(r.error))
      ensures var res := Run(tables, source, old(Cfg()), old(cur));
        r.Ok? ==> (Valid() && cur.pos == |source| &&
                   parseState == End && stack == [] && root == res.value.root && key == res.value.key)
      ensures var res := Run(tables, source, old(Cfg()), old(cur));
        r.Ok? && reviver.None? ==> heap == res.value.heap && r.value == root.value
      ensures var res := Run(tables, source, old(Cfg()), old(cur));
        r.Ok? && reviver.Some? ==>
          RevivedSubtree(reviver.value, res.value.heap, heap, root.value) &&
          r.value == ReviveSlot(reviver.value("", root.value), root.value)
    {
      while true
        invariant Valid()
        invariant Run(tables, source, Cfg(), cur) == Run(tables, source, old(Cfg()), old(cur))
        decreases |source| - cur.pos
      {
        ghost var before := cur;
        var t := Lex();
        if t.Err? {
          return Err(t.error);
        }
        var e := HandleToken(t.value);
        if e.Some? {
          return Err(e.value);
        }
        if t.value.kind.Eof? {
          break;
        }
        assert cur.pos > before.pos;
      }
      if reviver.Some? {
        var revived := Internalize(reviver.value);
        r := Ok(revived);
      } else {
        r := Ok(root.value);
      }
    }
  }

  /** `JSON5.parse(text, reviver)`: the parsed value and the heap holding its
      containers. */
  method ParseText(tables: UnicodeTables, text: string, reviver: Option<Reviver>)
    returns (r: Result<Slot, SyntaxError>, heap: Heap)
    ensures var res := Run(tables, text, Initial, Cursor(0, 1, 0));
      (r.Ok? <==> res.Ok?) && (r.Err? ==> res == Err(r.error))
    ensures var res := Run(tables, text, Initial, Cursor(0, 1, 0));
      r.Ok? && reviver.None? ==> heap == res.value.heap && r.value == res.value.root.value
    ensures var res := Run(tables, text, Initial, Cursor(0, 1, 0));
      r.Ok? && reviver.Some? ==>
        RevivedSubtree(reviver.value, res.value.heap, heap, res.value.root.value) &&
        r.value == ReviveSlot(reviver.value("", res.value.root.value), res.value.root.value)
    ensures r.Ok? ==> Ordered(heap) && ObjectsWellFormed(heap) && Tree(heap) && SlotInRange(heap, r.value)
  {
    var p := new Parser(tables, text);
    assert p.Cfg() == Initial;
    r := p.Parse(reviver);
    heap := p.heap;
    if r.Ok? {
      assert Shape(heap, p.stack, p.root, p.key, p.parseState);
      assert SlotInRange(heap, r.value) by {
        if reviver.Some? {
          ReviveSlotInRange(heap, reviver.value("", p.root.value), p.root.value);
        }
      }
    }
  }
}
