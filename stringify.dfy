/** The serializer of the bundled JSON5 codec: `stringify` with its inner
    functions `serializeProperty`, `quoteString`, `serializeObject`,
    `serializeKey` and `serializeArray`.

    The source's closure-local variables `stack` and `indent` are the fields of a
    Stringifier object; `propertyList`, `gap` and `quote` are fixed before the
    first call and live in an Env. Every method is proved equal to a pure
    function of the same name ending in `Text`, which the lemmas of
    Json5StringifyProps are about. The value graph is a heap as in Json5Values;
    unlike the parser's heaps it may hold cycles, which is what the `stack` check
    detects. */
module Json5Stringify {
  import opened Wrappers
  import opened Json5Util
  import opened Json5Values

  // ---------------------------------------------------------------- options

  /** The `space` argument: a number, a string, or anything else (no gap). */
  datatype Space = NoSpace | NumberSpace(n: real) | StringSpace(s: string)

  /** An element of an array `replacer`: strings are kept, numbers go through
      `String(v)`, anything else is ignored. */
  datatype ReplacerItem = StringItem(s: string) | NumberItem(n: Number) | OtherItem

  /** A quote character a caller may force. */
  type QuoteChar = c: char | c == '\'' || c == '"' witness '\''

  /** `String(n)` for a number: floating-point formatting, supplied by the caller. */
  type NumberText = Number -> string

  /** What stays fixed during one call of `stringify`: the identifier tables,
      the indentation unit, the forced quote, the allow-list and the number
      formatter. */
  datatype Env = Env(u: UnicodeTables, gap: string, quote: Option<QuoteChar>,
                     propertyList: Option<seq<string>>, numText: NumberText)

  datatype TypeError = CircularStructure

  function Min(a: int, b: int): int {
    if a < b then a else b
  }

  function Spaces(n: nat): (s: string)
    ensures |s| == n && forall i :: 0 <= i < n ==> s[i] == ' '
  {
    if n == 0 then "" else Spaces(n - 1) + " "
  }

  /** The indentation unit: a positive number gives that many spaces, rounded
      down and at most ten; a string gives its first ten characters; anything
      else gives none. */
  function Gap(space: Space): (gap: string)
    ensures |gap| <= 10
    ensures space.NumberSpace? && space.n > 0.0 ==>
      |gap| == Min(10, space.n.Floor) && forall i :: 0 <= i < |gap| ==> gap[i] == ' '
    ensures space.NumberSpace? && space.n <= 0.0 ==> gap == ""
    ensures space.StringSpace? ==> gap == space.s[..Min(10, |space.s|)]
    ensures space.NoSpace? ==> gap == ""
  {
    match space
    case NumberSpace(n) => if n > 0.0 then Spaces(Min(10, n.Floor)) else ""
    case StringSpace(s) => s[..Min(10, |s|)]
    case NoSpace => ""
  }

  /** The key an allow-list item contributes, if any. */
  function ItemKey(item: ReplacerItem, numText: NumberText): Option<string> {
    match item
    case StringItem(s) => Some(s)
    case NumberItem(n) => Some(numText(n))
    case OtherItem => None
  }

  predicate Distinct(list: seq<string>) {
    forall i, j :: 0 <= i < j < |list| ==> list[i] != list[j]
  }

  /** The position of the first item contributing `k`, or `|items|` when none does. */
  function FirstItem(items: seq<ReplacerItem>, numText: NumberText, k: string): (p: nat)
    ensures p <= |items|
    ensures p < |items| ==> ItemKey(items[p], numText) == Some(k)
    ensures forall i :: 0 <= i < p ==> ItemKey(items[i], numText) != Some(k)
  {
    if items == [] then 0
    else if ItemKey(items[0], numText) == Some(k) then 0
    else 1 + FirstItem(items[1..], numText, k)
  }

  /** The `propertyList` built from an array replacer: each key once, in the
      order of its first occurrence. */
  function AllowList(items: seq<ReplacerItem>, numText: NumberText): (list: seq<string>)
    ensures Distinct(list)
    ensures forall k :: k in list <==> exists i :: 0 <= i < |items| && ItemKey(items[i], numText) == Some(k)
    ensures forall a, b :: 0 <= a < b < |list| ==>
      FirstItem(items, numText, list[a]) < FirstItem(items, numText, list[b])
  {
    if items == [] then []
    else
      var prev := AllowList(items[..|items| - 1], numText);
      var last := items[|items| - 1];
      assert forall i :: 0 <= i < |items| - 1 ==> items[..|items| - 1][i] == items[i];
      FirstItemExtend(items, numText);
      match ItemKey(last, numText)
      case Some(k) => if k in prev then prev else prev + [k]
      case None => prev
  }

  /** Adding an item at the end moves no key's first occurrence, and a key not
      seen before first occurs at the new item. */
  lemma FirstItemExtend(items: seq<ReplacerItem>, numText: NumberText)
    requires items != []
    ensures forall k :: FirstItem(items[..|items| - 1], numText, k) < |items| - 1 ==>
      FirstItem(items, numText, k) == FirstItem(items[..|items| - 1], numText, k)
    ensures forall k :: FirstItem(items[..|items| - 1], numText, k) == |items| - 1 ==>
      FirstItem(items, numText, k) >= |items| - 1
  {
    var init := items[..|items| - 1];
    assert forall i :: 0 <= i < |init| ==> init[i] == items[i];
  }

  /** The loop over the replacer array in `stringify`. */
  method BuildPropertyList(items: seq<ReplacerItem>, numText: NumberText) returns (list: seq<string>)
    ensures list == AllowList(items, numText)
  {
    list := [];
    for i := 0 to |items|
      invariant list == AllowList(items[..i], numText)
    {
      assert items[..i + 1][..i] == items[..i];
      var item := ItemKey(items[i], numText);
      if item.Some? && item.value !in list {
        list := list + [item.value];
      }
    }
    assert items[..|items|] == items;
  }

  // ---------------------------------------------------------------- quoteString

  /** The `replacements` table of `quoteString`. */
  function Replacement(c: char): Option<string> {
    if c == '\'' then Some("\\'")
    else if c == '"' then Some("\\\"")
    else if c == '\\' then Some("\\\\")
    else if c == '\U{8}' then Some("\\b")
    else if c == '\U{C}' then Some("\\f")
    else if c == '\n' then Some("\\n")
    else if c == '\r' then Some("\\r")
    else if c == '\t' then Some("\\t")
    else if c == '\U{B}' then Some("\\v")
    else if c == '\0' then Some("\\0")
    else if c == '\U{2028}' then Some("\\u2028")
    else if c == '\U{2029}' then Some("\\u2029")
    else None
  }

  /** A lower-case hex digit, as `toString(16)` writes it. */
  function HexChar(d: nat): (c: char)
    requires d < 16
    ensures IsHexDigit(c) && HexDigitValue(c) == d
  {
    if d < 10 then ('0' as int + d) as char else ('a' as int + d - 10) as char
  }

  /** `'\\x' + ('00' + c.charCodeAt(0).toString(16)).substring(...)`: the code
      of a control character as two hex digits. */
  function ControlEscape(c: char): (s: string)
    requires c < ' '
    ensures |s| == 4 && s[..2] == "\\x" && AllHexDigits(s[2..]) && HexValue(s[2..]) == c as int
  {
    var s := "\\x" + [HexChar(c as nat / 16), HexChar(c as nat % 16)];
    assert HexValue(s[2..]) == HexValue(s[2..3]) * 16 + HexDigitValue(s[3]);
    assert HexValue(s[2..3]) == HexDigitValue(s[2]);
    s
  }

  /** `util.isDigit(value[i + 1])`: false past the end of the string. */
  predicate NextIsDigit(value: string, i: nat) {
    i + 1 < |value| && IsDigit(value[i + 1])
  }

  /** What one iteration of the loop in `quoteString` appends for `value[i]`;
      quote characters go in unescaped and are escaped afterwards. */
  function Piece(value: string, i: nat): (s: string)
    requires i < |value|
    ensures |s| > 0
  {
    var c := value[i];
    if c == '\'' || c == '"' then [c]
    else if c == '\0' && NextIsDigit(value, i) then "\\x00"
    else if Replacement(c).Some? then Replacement(c).value
    else if c < ' ' then ControlEscape(c)
    else [c]
  }

  /** The `product` after the first n iterations. */
  function Product(value: string, n: nat): string
    requires n <= |value|
  {
    if n == 0 then "" else Product(value, n - 1) + Piece(value, n - 1)
  }

  function Count(s: string, c: char): (n: nat)
    ensures n <= |s|
  {
    if s == [] then 0 else Count(s[..|s| - 1], c) + (if s[|s| - 1] == c then 1 else 0)
  }

  /** The forced quote, or the quote whose weight (0.1 for `'`, 0.2 for `"`, plus
      one per occurrence) is smaller. */
  function ChooseQuote(value: string, quote: Option<QuoteChar>): QuoteChar {
    if quote.Some? then quote.value
    else if 0.1 + Count(value, '\'') as real < 0.2 + Count(value, '"') as real then '\''
    else '"'
  }

  /** `product.replace(new RegExp(quoteChar, 'g'), replacements[quoteChar])`. */
  function EscapeQuotes(s: string, q: QuoteChar): (r: string)
    ensures |r| >= |s|
  {
    if s == [] then []
    else (if s[0] == q then ['\\', q] else [s[0]]) + EscapeQuotes(s[1..], q)
  }

  /** The result of `quoteString(value)`. */
  function QuoteText(value: string, quote: Option<QuoteChar>): (r: string)
    ensures |r| >= 2 && r[0] == r[|r| - 1] == ChooseQuote(value, quote)
  {
    var q := ChooseQuote(value, quote);
    [q] + EscapeQuotes(Product(value, |value|), q) + [q]
  }

  // ---------------------------------------------------------------- serializeKey

  /** The test of `serializeKey`: non-empty, an identifier-start code point
      first, then identifier-continue code points. The source walks the rest by
      UTF-16 code unit and tests `codePointAt(i)`: a code point outside the Basic
      Multilingual Plane passes at its high surrogate only if it is
      identifier-continue, and its low surrogate alone never is, so any such code
      point after the first forces quoting. */
  predicate BareKey(u: UnicodeTables, key: string) {
    |key| > 0 && IsIdStartChar(u, key[0]) &&
    forall i :: 1 <= i < |key| ==> IsIdContinueChar(u, key[i]) && Utf16Length(key[i]) == 1
  }

  /** The result of `serializeKey(key)`. */
  function KeyText(u: UnicodeTables, key: string, quote: Option<QuoteChar>): string {
    if BareKey(u, key) then key else QuoteText(key, quote)
  }

  // ---------------------------------------------------------------- layout

  /** `parts.join(sep)`. */
  function Join(parts: seq<string>, sep: string): string {
    if |parts| == 0 then ""
    else if |parts| == 1 then parts[0]
    else parts[0] + sep + Join(parts[1..], sep)
  }

  /** The `final` text of `serializeObject` / `serializeArray` from the parts,
      the enclosing indentation `stepback` and the inner one `inner`. */
  function Layout(open: char, close: char, parts: seq<string>, gap: string, stepback: string, inner: string): string {
    if parts == [] then [open, close]
    else if gap == "" then [open] + Join(parts, ",") + [close]
    else [open] + "\n" + inner + Join(parts, ",\n" + inner) + ",\n" + stepback + [close]
  }

  // ---------------------------------------------------------------- serializeProperty

  /** The containers not on the stack: what bounds the recursion, since every
      nested call has one more container on the stack. */
  function Unvisited(heap: Heap, stack: seq<nat>): set<nat> {
    set id: nat | id < |heap| && id !in stack
  }

  lemma PushShrinks(heap: Heap, stack: seq<nat>, id: nat)
    requires id < |heap| && id !in stack
    ensures Unvisited(heap, stack + [id]) < Unvisited(heap, stack)
  {
    assert id in Unvisited(heap, stack);
    assert id !in Unvisited(heap, stack + [id]);
  }

  lemma ChildInRange(heap: Heap, id: nat, i: nat)
    requires RefsInRange(heap) && id < |heap| && i < |Children(heap[id])|
    ensures SlotInRange(heap, Children(heap[id])[i])
  {
    assert NodeRefsWithin(heap[id], -1, |heap|);
  }

  lemma LookupInRange(heap: Heap, id: nat, key: string)
    requires RefsInRange(heap) && id < |heap| && heap[id].ObjectNode?
    ensures SlotInRange(heap, Lookup(heap[id].props, key))
  {
    var i := IndexOfKey(heap[id].props, key);
    if i >= 0 {
      ChildInRange(heap, id, i);
    }
  }

  /** The keys `serializeObject` visits: the allow-list if there is one,
      otherwise the object's own keys. */
  function ObjectKeys(env: Env, props: seq<Prop>): seq<string> {
    if env.propertyList.Some? then env.propertyList.value else Keys(props)
  }

  /** The result of `serializeProperty` for the value `v`: `undefined` (None)
      for a value with no JSON5 form, or the thrown TypeError. */
  function PropertyText(env: Env, heap: Heap, stack: seq<nat>, indent: string, v: Slot): Result<Option<string>, TypeError>
    requires RefsInRange(heap) && SlotInRange(heap, v)
    decreases Unvisited(heap, stack), 1, 0
  {
    match v
    case Absent => Ok(None)
    case NullV => Ok(Some("null"))
    case BoolV(b) => Ok(Some(if b then "true" else "false"))
    case NumV(n) => Ok(Some(env.numText(n)))
    case StrV(s) => Ok(Some(QuoteText(s, env.quote)))
    case Ref(id) =>
      match ContainerText(env, heap, stack, indent, id)
      case Ok(t) => Ok(Some(t))
      case Err(e) => Err(e)
  }

  /** The result of `serializeArray` or `serializeObject` for heap[id]. */
  function ContainerText(env: Env, heap: Heap, stack: seq<nat>, indent: string, id: nat): Result<string, TypeError>
    requires RefsInRange(heap) && id < |heap|
    decreases Unvisited(heap, stack), 0, 0
  {
    if id in stack then Err(CircularStructure)
    else
      PushShrinks(heap, stack, id);
      var inner := indent + env.gap;
      match heap[id]
      case ArrayNode(items) =>
        (match ItemsText(env, heap, stack + [id], inner, id, |items|)
         case Ok(parts) => Ok(Layout('[', ']', parts, env.gap, indent, inner))
         case Err(e) => Err(e))
      case ObjectNode(props) =>
        var keys := ObjectKeys(env, props);
        match MembersText(env, heap, stack + [id], inner, id, keys, |keys|)
        case Ok(parts) => Ok(Layout('{', '}', parts, env.gap, indent, inner))
        case Err(e) => Err(e)
  }

  /** `partial` after the first n iterations of the loop in `serializeArray`:
      a value with no JSON5 form becomes `null`. */
  function ItemsText(env: Env, heap: Heap, stack: seq<nat>, indent: string, id: nat, n: nat): Result<seq<string>, TypeError>
    requires RefsInRange(heap) && id < |heap| && heap[id].ArrayNode? && n <= |heap[id].items|
    decreases Unvisited(heap, stack), 2, n
  {
    if n == 0 then Ok([])
    else
      match ItemsText(env, heap, stack, indent, id, n - 1)
      case Err(e) => Err(e)
      case Ok(partial) =>
        ChildInRange(heap, id, n - 1);
        match PropertyText(env, heap, stack, indent, heap[id].items[n - 1])
        case Err(e) => Err(e)
        case Ok(s) => Ok(partial + [if s.Some? then s.value else "null"])
  }

  /** One `key: value` member as `serializeObject` writes it. */
  function MemberText(env: Env, key: string, value: string): string {
    KeyText(env.u, key, env.quote) + ":" + (if env.gap != "" then " " else "") + value
  }

  /** `partial` after the first n keys of the loop in `serializeObject`: a
      member whose value has no JSON5 form is left out. */
  function MembersText(env: Env, heap: Heap, stack: seq<nat>, indent: string, id: nat, keys: seq<string>, n: nat): Result<seq<string>, TypeError>
    requires RefsInRange(heap) && id < |heap| && heap[id].ObjectNode? && n <= |keys|
    decreases Unvisited(heap, stack), 2, n
  {
    if n == 0 then Ok([])
    else
      match MembersText(env, heap, stack, indent, id, keys, n - 1)
      case Err(e) => Err(e)
      case Ok(partial) =>
        LookupInRange(heap, id, keys[n - 1]);
        match PropertyText(env, heap, stack, indent, Lookup(heap[id].props, keys[n - 1]))
        case Err(e) => Err(e)
        case Ok(None) => Ok(partial)
        case Ok(Some(s)) => Ok(partial + [MemberText(env, keys[n - 1], s)])
  }

  /** The Env `stringify(value, replacer, space)` sets up. */
  function MakeEnv(u: UnicodeTables, replacer: Option<seq<ReplacerItem>>, space: Space,
                   quote: Option<QuoteChar>, numText: NumberText): Env {
    Env(u, Gap(space), quote, if replacer.Some? then Some(AllowList(replacer.value, numText)) else None, numText)
  }

  /** The result of `stringify`: `serializeProperty('', {'': value})`. */
  function StringifyText(env: Env, heap: Heap, value: Slot): Result<Option<string>, TypeError>
    requires RefsInRange(heap) && SlotInRange(heap, value)
  {
    PropertyText(env, heap, [], "", value)
  }

  lemma ItemsErrPersists(env: Env, heap: Heap, stack: seq<nat>, indent: string, id: nat, i: nat, n: nat)
    requires RefsInRange(heap) && id < |heap| && heap[id].ArrayNode? && i <= n <= |heap[id].items|
    requires ItemsText(env, heap, stack, indent, id, i).Err?
    ensures ItemsText(env, heap, stack, indent, id, n) == ItemsText(env, heap, stack, indent, id, i)
    decreases n
  {
    if n > i {
      ItemsErrPersists(env, heap, stack, indent, id, i, n - 1);
    }
  }

  /** One more key of the loop in `serializeObject`, given what its value
      serializes to. */
  lemma MembersNext(env: Env, heap: Heap, stack: seq<nat>, indent: string, id: nat, keys: seq<string>, i: nat,
                    partial: seq<string>, s: Result<Option<string>, TypeError>)
    requires RefsInRange(heap) && id < |heap| && heap[id].ObjectNode? && i < |keys|
    requires MembersText(env, heap, stack, indent, id, keys, i) == Ok(partial)
    requires SlotInRange(heap, Lookup(heap[id].props, keys[i]))
    requires s == PropertyText(env, heap, stack, indent, Lookup(heap[id].props, keys[i]))
    ensures s.Err? ==> MembersText(env, heap, stack, indent, id, keys, i + 1) == Err(s.error)
    ensures s.Ok? && s.value.None? ==> MembersText(env, heap, stack, indent, id, keys, i + 1) == Ok(partial)
    ensures s.Ok? && s.value.Some? ==>
      MembersText(env, heap, stack, indent, id, keys, i + 1) == Ok(partial + [MemberText(env, keys[i], s.value.value)])
  {
  }

  lemma MembersErrPersists(env: Env, heap: Heap, stack: seq<nat>, indent: string, id: nat, keys: seq<string>, i: nat, n: nat)
    requires RefsInRange(heap) && id < |heap| && heap[id].ObjectNode? && i <= n <= |keys|
    requires MembersText(env, heap, stack, indent, id, keys, i).Err?
    ensures MembersText(env, heap, stack, indent, id, keys, n) == MembersText(env, heap, stack, indent, id, keys, i)
    decreases n
  {
    if n > i {
      MembersErrPersists(env, heap, stack, indent, id, keys, i, n - 1);
    }
  }

  // ---------------------------------------------------------------- the closure

  /** The state `stringify`'s inner functions share: the visitation `stack` of
      containers being serialized and the current `indent`. */
  class Stringifier {
    const env: Env
    const heap: Heap
    var stack: seq<nat>
    var indent: string

    constructor(env: Env, heap: Heap)
      ensures this.env == env && this.heap == heap && stack == [] && indent == ""
    {
      this.env := env;
      this.heap := heap;
      stack := [];
      indent := "";
    }

    /** `quoteString(value)`. */
    method QuoteString(value: string) returns (r: string)
      ensures r == QuoteText(value, env.quote)
    {
      var singleWeight: real := 0.1;
      var doubleWeight: real := 0.2;
      var product := "";
      for i := 0 to |value|
        invariant product == Product(value, i)
        invariant singleWeight == 0.1 + Count(value[..i], '\'') as real
        invariant doubleWeight == 0.2 + Count(value[..i], '"') as real
      {
        assert value[..i + 1][..i] == value[..i];
        var c := value[i];
        if c == '\'' {
          singleWeight := singleWeight + 1.0;
          product := product + [c];
        } else if c == '"' {
          doubleWeight := doubleWeight + 1.0;
          product := product + [c];
        } else if c == '\0' && i + 1 < |value| && IsDigit(value[i + 1]) {
          product := product + "\\x00";
        } else if Replacement(c).Some? {
          product := product + Replacement(c).value;
        } else if c < ' ' {
          product := product + ControlEscape(c);
        } else {
          product := product + [c];
        }
      }
      assert value[..|value|] == value;
      var quoteChar: QuoteChar;
      if env.quote.Some? {
        quoteChar := env.quote.value;
      } else if singleWeight < doubleWeight {
        quoteChar := '\'';
      } else {
        quoteChar := '"';
      }
      product := EscapeQuotes(product, quoteChar);
      r := [quoteChar] + product + [quoteChar];
    }

    /** `serializeKey(key)`. */
    method SerializeKey(key: string) returns (r: string)
      ensures r == KeyText(env.u, key, env.quote)
    {
      if |key| == 0 || !IsIdStartChar(env.u, key[0]) {
        r := QuoteString(key);
        return;
      }
      var i := 1;
      while i < |key|
        invariant 1 <= i <= |key|
        invariant forall j :: 1 <= j < i ==> IsIdContinueChar(env.u, key[j]) && Utf16Length(key[j]) == 1
      {
        if !IsIdContinueChar(env.u, key[i]) || Utf16Length(key[i]) == 2 {
          r := QuoteString(key);
          return;
        }
        i := i + 1;
      }
      r := key;
    }

    /** The lines of `serializeObject` that build one member from a key and the
        text of its value. */
    method SerializeMember(key: string, value: string) returns (member: string)
      ensures member == MemberText(env, key, value)
    {
      member := SerializeKey(key);
      member := member + ":";
      if env.gap != "" {
        member := member + " ";
      }
      member := member + value;
    }

    /** `serializeProperty(key, holder)` for the value `holder[key]`. */
    method SerializeProperty(v: Slot) returns (r: Result<Option<string>, TypeError>)
      requires RefsInRange(heap) && SlotInRange(heap, v)
      modifies this
      ensures r == PropertyText(env, heap, old(stack), old(indent), v)
      ensures r.Ok? ==> stack == old(stack) && indent == old(indent)
      decreases Unvisited(heap, stack), 1, 0
    {
      match v {
        case Absent => r := Ok(None);
        case NullV => r := Ok(Some("null"));
        case BoolV(b) => r := Ok(Some(if b then "true" else "false"));
        case NumV(n) => r := Ok(Some(env.numText(n)));
        case StrV(s) =>
          var q := QuoteString(s);
          r := Ok(Some(q));
        case Ref(id) =>
          var t;
          if heap[id].ArrayNode? {
            t := SerializeArray(id);
          } else {
            t := SerializeObject(id);
          }
          match t {
            case Ok(text) => r := Ok(Some(text));
            case Err(e) => r := Err(e);
          }
      }
    }

    /** `serializeArray(value)` for the array heap[id]. */
    method SerializeArray(id: nat) returns (r: Result<string, TypeError>)
      requires RefsInRange(heap) && id < |heap| && heap[id].ArrayNode?
      modifies this
      ensures r == ContainerText(env, heap, old(stack), old(indent), id)
      ensures r.Ok? ==> stack == old(stack) && indent == old(indent)
      decreases Unvisited(heap, stack), 0, 0
    {
      if id in stack {
        return Err(CircularStructure);
      }
      PushShrinks(heap, stack, id);
      stack := stack + [id];
      var stepback := indent;
      indent := indent + env.gap;
      var items := heap[id].items;
      var partial: seq<string> := [];
      var i := 0;
      while i < |items|
        invariant i <= |items|
        invariant stack == old(stack) + [id] && stepback == old(indent) && indent == stepback + env.gap
        invariant ItemsText(env, heap, stack, indent, id, i) == Ok(partial)
      {
        ChildInRange(heap, id, i);
        ghost var inner := indent;
        var s := SerializeProperty(items[i]);
        if s.Err? {
          ItemsErrPersists(env, heap, old(stack) + [id], inner, id, i + 1, |items|);
          return Err(s.error);
        }
        partial := partial + [if s.value.Some? then s.value.value else "null"];
        i := i + 1;
      }
      r := Ok(Layout('[', ']', partial, env.gap, stepback, indent));
      stack := stack[..|stack| - 1];
      indent := stepback;
    }

    /** `serializeObject(value)` for the object heap[id]. */
    method SerializeObject(id: nat) returns (r: Result<string, TypeError>)
      requires RefsInRange(heap) && id < |heap| && heap[id].ObjectNode?
      modifies this
      ensures r == ContainerText(env, heap, old(stack), old(indent), id)
      ensures r.Ok? ==> stack == old(stack) && indent == old(indent)
      decreases Unvisited(heap, stack), 0, 0
    {
      if id in stack {
        return Err(CircularStructure);
      }
      PushShrinks(heap, stack, id);
      stack := stack + [id];
      var stepback := indent;
      indent := indent + env.gap;
      var props := heap[id].props;
      var keys := ObjectKeys(env, props);
      var partial: seq<string> := [];
      var i := 0;
      while i < |keys|
        invariant i <= |keys|
        invariant stack == old(stack) + [id] && stepback == old(indent) && indent == stepback + env.gap
        invariant MembersText(env, heap, stack, indent, id, keys, i) == Ok(partial)
      {
        var key := keys[i];
        LookupInRange(heap, id, key);
        ghost var inner := indent;
        var s := SerializeProperty(Lookup(props, key));
        MembersNext(env, heap, old(stack) + [id], inner, id, keys, i, partial, s);
        if s.Err? {
          MembersErrPersists(env, heap, old(stack) + [id], inner, id, keys, i + 1, |keys|);
          return Err(s.error);
        }
        if s.value.Some? {
          var member := SerializeMember(key, s.value.value);
          partial := partial + [member];
        }
        i := i + 1;
      }
      r := Ok(Layout('{', '}', partial, env.gap, stepback, indent));
      stack := stack[..|stack| - 1];
      indent := stepback;
    }
  }

  /** `JSON5.stringify(value, replacer, space)` with an array replacer or none,
      and `quote` as the options object may force it. */
  method Stringify(u: UnicodeTables, heap: Heap, value: Slot, replacer: Option<seq<ReplacerItem>>,
                   space: Space, quote: Option<QuoteChar>, numText: NumberText)
    returns (r: Result<Option<string>, TypeError>)
    requires RefsInRange(heap) && SlotInRange(heap, value)
    ensures r == StringifyText(MakeEnv(u, replacer, space, quote, numText), heap, value)
  {
    var propertyList: Option<seq<string>> := None;
    if replacer.Some? {
      var list := BuildPropertyList(replacer.value, numText);
      propertyList := Some(list);
    }
    var s := new Stringifier(Env(u, Gap(space), quote, propertyList, numText), heap);
    r := s.SerializeProperty(value);
  }
}
