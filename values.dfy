/** The value tree shared by the parser and the serializer. JavaScript objects and
    arrays are reference values that the parser fills in place after attaching
    them to their parent, and that a caller may link into cycles before calling the
    serializer; the model keeps them in an explicit heap (a sequence of nodes)
    and refers to them by index. */
module Json5Values {

  /** A numeric value, kept as the sign multiplier and the lexeme it was read from
      ("0x1F", "1.5e3", "Infinity", "NaN"): the floating-point conversion is not
      modelled. The value is sign * Number(lexeme); a "NaN" lexeme is NaN whatever
      the sign. */
  datatype Number = Number(sign: int, lexeme: string)

  /** What a property or an array element holds. `Absent` is `undefined` (an array
      hole, a deleted value, or a value the serializer cannot render such as a
      function); `Ref` points at a container in the heap. */
  datatype Slot = Absent | NullV | BoolV(b: bool) | NumV(n: Number) | StrV(s: string) | Ref(id: nat)

  /** A slot that is not a container reference. */
  type Scalar = s: Slot | !s.Ref? witness NullV

  datatype Prop = Prop(key: string, val: Slot)

  /** A container: an array of slots, or an object's own properties in key order. */
  datatype Node = ArrayNode(items: seq<Slot>) | ObjectNode(props: seq<Prop>)

  type Heap = seq<Node>

  function Keys(props: seq<Prop>): (ks: seq<string>)
    ensures |ks| == |props|
    ensures forall i :: 0 <= i < |props| ==> ks[i] == props[i].key
  {
    if props == [] then [] else [props[0].key] + Keys(props[1..])
  }

  predicate DistinctKeys(props: seq<Prop>) {
    forall i, j :: 0 <= i < j < |props| ==> props[i].key != props[j].key
  }

  /** The position of `key` among the properties, if present. */
  function IndexOfKey(props: seq<Prop>, key: string): (r: int)
    ensures -1 <= r < |props|
    ensures r >= 0 ==> props[r].key == key
    ensures r < 0 ==> forall i :: 0 <= i < |props| ==> props[i].key != key
    ensures r >= 0 ==> forall i :: 0 <= i < r ==> props[i].key != key
  {
    if props == [] then -1
    else if props[0].key == key then 0
    else
      var r := IndexOfKey(props[1..], key);
      if r < 0 then -1 else r + 1
  }

  /** `object[key]`: the property's value, or `undefined` when there is none. */
  function Lookup(props: seq<Prop>, key: string): Slot {
    var i := IndexOfKey(props, key);
    if i < 0 then Absent else props[i].val
  }

  /** `object[key] = value`: overwrite in place if the key is present, append
      otherwise. */
  function SetProp(props: seq<Prop>, key: string, value: Slot): (r: seq<Prop>)
    ensures DistinctKeys(props) ==> DistinctKeys(r)
    ensures Lookup(r, key) == value
    ensures Keys(r) == if IndexOfKey(props, key) < 0 then Keys(props) + [key] else Keys(props)
    ensures forall i :: 0 <= i < |r| ==> r[i] == Prop(key, value) || r[i] in props
  {
    var i := IndexOfKey(props, key);
    if i < 0 then
      var r := props + [Prop(key, value)];
      assert IndexOfKey(r, key) == |props| by { IndexOfKeyAppend(props, key, value); }
      r
    else
      var r := props[i := Prop(key, value)];
      assert IndexOfKey(r, key) == i by { IndexOfKeySame(props, r, key, i); }
      r
  }

  /** `delete object[key]`. */
  function RemoveProp(props: seq<Prop>, key: string): (r: seq<Prop>)
    ensures IndexOfKey(props, key) < 0 ==> r == props
    ensures IndexOfKey(props, key) >= 0 ==>
      r == props[..IndexOfKey(props, key)] + props[IndexOfKey(props, key) + 1..]
    ensures DistinctKeys(props) ==> DistinctKeys(r)
    ensures DistinctKeys(props) ==> Lookup(r, key) == Absent
    ensures forall i :: 0 <= i < |r| ==> r[i] in props
  {
    var i := IndexOfKey(props, key);
    if i < 0 then props
    else
      var r := props[..i] + props[i + 1..];
      assert DistinctKeys(props) ==> IndexOfKey(r, key) < 0 by {
        if DistinctKeys(props) {
          forall j | 0 <= j < |r| ensures r[j].key != key {
            if j < i { assert r[j] == props[j]; } else { assert r[j] == props[j + 1]; }
          }
        }
      }
      r
  }

  /** A key that occurs once, at a known place, is found there. */
  lemma IndexOfKeyAt(a: seq<Prop>, p: Prop, b: seq<Prop>)
    requires forall j :: 0 <= j < |a| ==> a[j].key != p.key
    ensures IndexOfKey(a + [p] + b, p.key) == |a|
  {
    var props := a + [p] + b;
    assert props[|a|] == p;
    assert forall j :: 0 <= j < |a| ==> props[j] == a[j];
  }

  /** Assigning to a present key overwrites it where it stands. */
  lemma SetPropInPlace(a: seq<Prop>, p: Prop, b: seq<Prop>, value: Slot)
    requires forall j :: 0 <= j < |a| ==> a[j].key != p.key
    ensures Lookup(a + [p] + b, p.key) == p.val
    ensures SetProp(a + [p] + b, p.key, value) == a + [Prop(p.key, value)] + b
  {
    IndexOfKeyAt(a, p, b);
    var props := a + [p] + b;
    assert props[|a| := Prop(p.key, value)] == a + [Prop(p.key, value)] + b;
  }

  /** Deleting a present key closes the gap it leaves. */
  lemma RemovePropInPlace(a: seq<Prop>, p: Prop, b: seq<Prop>)
    requires forall j :: 0 <= j < |a| ==> a[j].key != p.key
    ensures RemoveProp(a + [p] + b, p.key) == a + b
  {
    IndexOfKeyAt(a, p, b);
    var props := a + [p] + b;
    assert props[..|a|] == a;
    assert props[|a| + 1..] == b;
  }

  lemma IndexOfKeyAppend(props: seq<Prop>, key: string, value: Slot)
    requires IndexOfKey(props, key) < 0
    ensures IndexOfKey(props + [Prop(key, value)], key) == |props|
  {
    var r := props + [Prop(key, value)];
    assert r[|props|].key == key;
    assert forall j :: 0 <= j < |props| ==> r[j] == props[j];
  }

  lemma IndexOfKeySame(props: seq<Prop>, r: seq<Prop>, key: string, i: int)
    requires 0 <= i < |props| == |r|
    requires IndexOfKey(props, key) == i
    requires forall j :: 0 <= j < |r| && j != i ==> r[j] == props[j]
    requires r[i].key == key
    ensures IndexOfKey(r, key) == i
  {
  }

  /** The slots a container holds, in order. */
  function Children(n: Node): (cs: seq<Slot>)
    ensures n.ArrayNode? ==> cs == n.items
    ensures n.ObjectNode? ==> |cs| == |n.props| && forall i :: 0 <= i < |cs| ==> cs[i] == n.props[i].val
  {
    match n
    case ArrayNode(items) => items
    case ObjectNode(props) => seq(|props|, i requires 0 <= i < |props| => props[i].val)
  }

  /** Every reference the node holds points strictly between lo and hi. */
  predicate NodeRefsWithin(n: Node, lo: int, hi: int) {
    forall i :: 0 <= i < |Children(n)| && Children(n)[i].Ref? ==> lo < Children(n)[i].id < hi
  }

  predicate SlotInRange(heap: Heap, s: Slot) {
    s.Ref? ==> s.id < |heap|
  }

  /** Every reference points at a node of the heap. */
  predicate RefsInRange(heap: Heap) {
    forall n :: 0 <= n < |heap| ==> NodeRefsWithin(heap[n], -1, |heap|)
  }

  /** Node n exists and its references point at later nodes. */
  predicate NodeOrdered(heap: Heap, n: int) {
    0 <= n < |heap| && NodeRefsWithin(heap[n], n, |heap|)
  }

  /** Every reference points at a later node: the heap holds no cycle. The parser
      builds heaps of this shape, allocating children after their parents. */
  predicate Ordered(heap: Heap) {
    forall n :: 0 <= n < |heap| ==> NodeOrdered(heap, n)
  }

  /** Node n exists and, if it is an object, its keys are distinct. */
  predicate NodeWellFormed(heap: Heap, n: int) {
    0 <= n < |heap| && (heap[n].ObjectNode? ==> DistinctKeys(heap[n].props))
  }

  /** Every object of the heap has distinct keys, as JavaScript objects do. */
  predicate ObjectsWellFormed(heap: Heap) {
    forall n :: 0 <= n < |heap| ==> NodeWellFormed(heap, n)
  }

  lemma OrderedRefsInRange(heap: Heap)
    requires Ordered(heap)
    ensures RefsInRange(heap)
  {
    forall n | 0 <= n < |heap| ensures NodeRefsWithin(heap[n], -1, |heap|) {
      assert NodeOrdered(heap, n);
    }
  }
}
