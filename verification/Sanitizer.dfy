/** src/utils/pii-filter.ts: the depth-bounded walk of `sanitizeObject` over arbitrary values,
    cyclic ones included. */
module Sanitizer {
  import opened Regex
  import opened Replacement
  import opened PiiPatterns
  import opened PiiTags
  import opened PiiKeys
  import opened PiiJson
  import Decimal

  // --- Values ---

  /** A JavaScript value: arrays and objects by identity, `Other` for numbers, booleans, null
      and undefined. */
  datatype Value = Str(text: string) | Other(code: int) | Arr(id: nat) | Obj(id: nat)

  datatype Entry = Entry(key: string, value: Value)

  /** What the identities stand for; references may form cycles. An object is the list of its
      `Object.entries`. An identity that stands for nothing reads as empty. */
  datatype Graph = Graph(arrayTable: seq<seq<Value>>, objectTable: seq<seq<Entry>>) {
    function Elements(id: nat): seq<Value> {
      if id < |arrayTable| then arrayTable[id] else []
    }

    function Entries(id: nat): seq<Entry> {
      if id < |objectTable| then objectTable[id] else []
    }
  }

  /** The freshly built output. `Shared` is an array of the input that is handed on as it is. */
  datatype Tree = TStr(text: string) | TOther(code: int) | TArr(elements: seq<Tree>) | TObj(fields: seq<Field>)
                | Shared(id: nat)

  datatype Field = Field(key: string, tree: Tree)

  const MAX_DEPTH := 10
  const MAX_ARRAY_ELEMENTS := 1000
  const CUT := "[MAX-DEPTH]"

  /** The truncation marker for `n` dropped elements. */
  function More(n: nat): string {
    "[\U{2026}" + Decimal.Print(n) + " more]"
  }

  /** How many levels the walk may still go down. */
  function Left(depth: nat): nat {
    if depth > MAX_DEPTH then 0 else MAX_DEPTH + 1 - depth
  }

  lemma LeftDrops(depth: nat)
    requires depth <= MAX_DEPTH
    ensures Left(depth + 1) < Left(depth)
  {
  }

  function Walked(length: nat): (n: nat)
    ensures n <= length
  {
    if length < MAX_ARRAY_ELEMENTS then length else MAX_ARRAY_ELEMENTS
  }

  // --- The walk as functions ---

  function CleanArray(g: Graph, id: nat, piiKey: bool, depth: nat): (t: Tree)
    ensures t.TArr?
    decreases Left(depth), 2, 0
  {
    hide *;
    if depth > MAX_DEPTH then TArr([TStr(CUT)])
    else
      var els := g.Elements(id);
      TArr(CleanElements(g, els, piiKey, depth, Walked(|els|)) + Marker(|els|))
  }

  function Marker(length: nat): seq<Tree> {
    if length > MAX_ARRAY_ELEMENTS then [TStr(More(length - MAX_ARRAY_ELEMENTS))] else []
  }

  function CleanElements(g: Graph, els: seq<Value>, piiKey: bool, depth: nat, n: nat): (ts: seq<Tree>)
    requires n <= |els| && depth <= MAX_DEPTH
    ensures |ts| == n
    decreases Left(depth), 1, n
  {
    hide *;
    if n == 0 then []
    else CleanElements(g, els, piiKey, depth, n - 1) + [CleanElement(g, els[n - 1], piiKey, depth)]
  }

  function CleanElement(g: Graph, v: Value, piiKey: bool, depth: nat): Tree
    requires depth <= MAX_DEPTH
    decreases Left(depth), 0, 0
  {
    hide *;
    LeftDrops(depth);
    match v
    case Arr(id) => CleanArray(g, id, piiKey, depth + 1)
    case Obj(id) => CleanObject(g, id, depth + 1)
    case Str(s) => TStr(if piiKey then REDACTED else Redacted(s))
    case Other(c) => TOther(c)
  }

  function CleanObject(g: Graph, id: nat, depth: nat): (t: Tree)
    ensures t.TObj?
    decreases Left(depth), 2, 0
  {
    hide *;
    if depth > MAX_DEPTH then TObj([Field("__truncated", TStr(CUT))])
    else TObj(CleanFields(g, g.Entries(id), depth))
  }

  /** Assigning to the property `__proto__` sets the prototype and adds no entry. */
  function CleanFields(g: Graph, entries: seq<Entry>, depth: nat): seq<Field>
    requires depth <= MAX_DEPTH
    decreases Left(depth), 1, |entries|
  {
    hide *;
    if entries == [] then []
    else
      var e := entries[|entries| - 1];
      CleanFields(g, entries[..|entries| - 1], depth)
      + (if e.key == "__proto__" then [] else [Field(e.key, CleanValue(g, e.key, e.value, depth))])
  }

  function CleanValue(g: Graph, key: string, v: Value, depth: nat): Tree
    requires depth <= MAX_DEPTH
    decreases Left(depth), 0, 0
  {
    hide *;
    LeftDrops(depth);
    match v
    case Arr(id) => if IsUuidIdKey(key) then Shared(id) else CleanArray(g, id, KeyMatchesPII(key), depth + 1)
    case Obj(id) => if KeyMatchesPII(key) then TStr(REDACTED) else CleanObject(g, id, depth + 1)
    case Str(s) => TStr(if KeyMatchesPII(key) then REDACTED else Redacted(s))
    case Other(c) => if KeyMatchesPII(key) then TStr(REDACTED) else TOther(c)
  }

  // One step of each function.

  lemma ArrayStep(g: Graph, id: nat, piiKey: bool, depth: nat)
    ensures depth > MAX_DEPTH ==> CleanArray(g, id, piiKey, depth) == TArr([TStr(CUT)])
    ensures depth <= MAX_DEPTH ==>
              var els := g.Elements(id);
              CleanArray(g, id, piiKey, depth) == TArr(CleanElements(g, els, piiKey, depth, Walked(|els|)) + Marker(|els|))
  {
    hide CleanElements, Marker, CUT;
  }

  lemma {:induction false} ElementsAt(g: Graph, els: seq<Value>, piiKey: bool, depth: nat, n: nat, i: nat)
    requires i < n <= |els| && depth <= MAX_DEPTH
    ensures CleanElements(g, els, piiKey, depth, n)[i] == CleanElement(g, els[i], piiKey, depth)
    decreases n
  {
    hide *;
    ElementsNext(g, els, piiKey, depth, n - 1);
    if i < n - 1 {
      ElementsAt(g, els, piiKey, depth, n - 1, i);
    }
  }

  lemma ElementsNext(g: Graph, els: seq<Value>, piiKey: bool, depth: nat, n: nat)
    requires n < |els| && depth <= MAX_DEPTH
    ensures CleanElements(g, els, piiKey, depth, 0) == []
    ensures CleanElements(g, els, piiKey, depth, n + 1)
         == CleanElements(g, els, piiKey, depth, n) + [CleanElement(g, els[n], piiKey, depth)]
  {
    hide CleanElement;
  }

  lemma ElementStep(g: Graph, v: Value, piiKey: bool, depth: nat)
    requires depth <= MAX_DEPTH
    ensures CleanElement(g, v, piiKey, depth) ==
            match v
            case Arr(id) => CleanArray(g, id, piiKey, depth + 1)
            case Obj(id) => CleanObject(g, id, depth + 1)
            case Str(s) => TStr(if piiKey then REDACTED else Redacted(s))
            case Other(c) => TOther(c)
  {
    hide CleanArray, CleanObject, Redacted, REDACTED;
  }

  lemma ObjectStep(g: Graph, id: nat, depth: nat)
    ensures depth > MAX_DEPTH ==> CleanObject(g, id, depth) == TObj([Field("__truncated", TStr(CUT))])
    ensures depth <= MAX_DEPTH ==> CleanObject(g, id, depth) == TObj(CleanFields(g, g.Entries(id), depth))
  {
    hide CleanFields, CUT;
  }

  lemma FieldsNext(g: Graph, entries: seq<Entry>, e: Entry, depth: nat)
    requires depth <= MAX_DEPTH
    ensures CleanFields(g, [], depth) == []
    ensures CleanFields(g, entries + [e], depth) ==
            CleanFields(g, entries, depth)
            + (if e.key == "__proto__" then [] else [Field(e.key, CleanValue(g, e.key, e.value, depth))])
  {
    hide CleanValue;
    assert (entries + [e])[..|entries|] == entries;
  }

  lemma ValueStep(g: Graph, key: string, v: Value, depth: nat)
    requires depth <= MAX_DEPTH
    ensures CleanValue(g, key, v, depth) ==
            match v
            case Arr(id) => if IsUuidIdKey(key) then Shared(id) else CleanArray(g, id, KeyMatchesPII(key), depth + 1)
            case Obj(id) => if KeyMatchesPII(key) then TStr(REDACTED) else CleanObject(g, id, depth + 1)
            case Str(s) => TStr(if KeyMatchesPII(key) then REDACTED else Redacted(s))
            case Other(c) => if KeyMatchesPII(key) then TStr(REDACTED) else TOther(c)
  {
    hide CleanArray, CleanObject, Redacted, REDACTED, IsUuidIdKey, KeyMatchesPII;
  }

  // --- The walk as the source runs it ---

  method SanitizeArray(g: Graph, id: nat, piiKey: bool, depth: nat) returns (t: Tree)
    ensures t == CleanArray(g, id, piiKey, depth)
    decreases Left(depth)
  {
    ArrayStep(g, id, piiKey, depth);
    hide CleanArray, CleanElements, CleanElement, CleanObject, KeyMatchesPII, IsUuidIdKey, Redacted, More, CUT, REDACTED, Clean;
    if depth > MAX_DEPTH { return TArr([TStr(CUT)]); }
    var arr := g.Elements(id);
    var limit := Walked(|arr|);
    var out: seq<Tree> := [];
    if arr != [] { ElementsNext(g, arr, piiKey, depth, 0); } else { NoElements(g, piiKey, depth); }
    for i := 0 to limit
      invariant out == CleanElements(g, arr, piiKey, depth, i)
    {
      ElementsNext(g, arr, piiKey, depth, i);
      ElementStep(g, arr[i], piiKey, depth);
      var el;
      match arr[i] {
        case Arr(sub) => el := SanitizeArray(g, sub, piiKey, depth + 1);
        case Obj(sub) => el := SanitizeObjectInner(g, sub, depth + 1);
        case Str(s) => var text := RedactSensitiveStrings(s); el := TStr(if piiKey then REDACTED else text);
        case Other(c) => el := TOther(c);
      }
      out := out + [el];
    }
    if |arr| > MAX_ARRAY_ELEMENTS {
      out := out + [TStr(More(|arr| - MAX_ARRAY_ELEMENTS))];
    }
    t := TArr(out);
  }

  lemma NoElements(g: Graph, piiKey: bool, depth: nat)
    requires depth <= MAX_DEPTH
    ensures CleanElements(g, [], piiKey, depth, 0) == []
  {
  }

  method SanitizeObjectInner(g: Graph, id: nat, depth: nat) returns (t: Tree)
    ensures t == CleanObject(g, id, depth)
    decreases Left(depth)
  {
    ObjectStep(g, id, depth);
    hide CleanObject, CleanFields, CleanValue, CleanArray, KeyMatchesPII, IsUuidIdKey, Redacted, More, CUT, REDACTED, Clean;
    if depth > MAX_DEPTH { return TObj([Field("__truncated", TStr(CUT))]); }
    var entries := g.Entries(id);
    var sanitized: seq<Field> := [];
    if entries != [] { FieldsNext(g, [], entries[0], depth); } else { NoFields(g, depth); }
    for i := 0 to |entries|
      invariant sanitized == CleanFields(g, entries[..i], depth)
    {
      assert entries[..i + 1] == entries[..i] + [entries[i]];
      FieldsNext(g, entries[..i], entries[i], depth);
      var Entry(key, value) := entries[i];
      ValueStep(g, key, value, depth);
      var tree;
      if value.Arr? {
        if IsUuidIdKey(key) { tree := Shared(value.id); }
        else { tree := SanitizeArray(g, value.id, KeyMatchesPII(key), depth + 1); }
      } else if KeyMatchesPII(key) {
        tree := TStr(REDACTED);
      } else if value.Obj? {
        tree := SanitizeObjectInner(g, value.id, depth + 1);
      } else if value.Str? {
        var text := RedactSensitiveStrings(value.text);
        tree := TStr(text);
      } else {
        tree := TOther(value.code);
      }
      if key != "__proto__" { sanitized := sanitized + [Field(key, tree)]; }
    }
    assert entries[..|entries|] == entries;
    t := TObj(sanitized);
  }

  // --- What the output looks like ---

  /** A leaf text is free of the four patterns, or a truncation marker, whose number may
      itself look like one. */
  ghost predicate LeafText(s: string) {
    Clean(s) || exists n: nat :: s == More(n)
  }

  /** The output has at most `levels` levels and nothing but leaf texts. */
  ghost predicate Safe(t: Tree, levels: nat)
    decreases t
  {
    match t
    case TStr(s) => LeafText(s)
    case TArr(ts) => levels > 0 && forall i | 0 <= i < |ts| :: Safe(ts[i], levels - 1)
    case TObj(fs) => levels > 0 && forall i | 0 <= i < |fs| :: Safe(fs[i].tree, levels - 1)
    case _ => true
  }

  lemma ConstantsClean()
    ensures Clean(REDACTED) && Clean(CUT)
  {
    BodiesSealed();
    CleanHits(REDACTED);
    CleanHits(CUT);
    ConstantFree(SsnBody());
    ConstantFree(CardBody());
    ConstantFree(EmailBody());
    ConstantFree(PhoneBody());
  }

  lemma ConstantFree(b: Re)
    requires Sealed(b)
    ensures NoHit(b, REDACTED) && NoHit(b, CUT)
  {
    InnocentFree(b, REDACTED);
    InnocentFree(b, CUT);
  }

  lemma LeafTexts()
    ensures LeafText(REDACTED) && LeafText(CUT)
    ensures forall s :: LeafText(Redacted(s))
    ensures forall n: nat :: LeafText(More(n))
  {
    hide Clean, Redacted, More, CUT, REDACTED;
    ConstantsClean();
    forall s ensures LeafText(Redacted(s)) { RedactedIsClean(s); }
  }

  lemma {:induction false} ArraySafe(g: Graph, id: nat, piiKey: bool, depth: nat)
    ensures Safe(CleanArray(g, id, piiKey, depth), Left(depth) + 1)
    decreases Left(depth), 2, 0
  {
    hide KeyMatchesPII, IsUuidIdKey, Redacted, More, LeafText, CleanElement, CUT, REDACTED;
    LeafTexts();
    var TArr(ts) := CleanArray(g, id, piiKey, depth);
    if depth > MAX_DEPTH {
      assert Safe(TStr(CUT), 0);
    } else {
      var els := g.Elements(id);
      forall i | 0 <= i < |ts| ensures Safe(ts[i], Left(depth)) {
        if i < Walked(|els|) {
          ElementSafe(g, els[i], piiKey, depth);
          ElementsAt(g, els, piiKey, depth, Walked(|els|), i);
        } else {
          assert ts[i] == TStr(More(|els| - MAX_ARRAY_ELEMENTS));
        }
      }
    }
  }

  lemma {:induction false} ElementSafe(g: Graph, v: Value, piiKey: bool, depth: nat)
    requires depth <= MAX_DEPTH
    ensures Safe(CleanElement(g, v, piiKey, depth), Left(depth))
    decreases Left(depth), 0, 0
  {
    hide KeyMatchesPII, IsUuidIdKey, Redacted, More, LeafText, CleanArray, CleanObject, CUT, REDACTED;
    LeafTexts();
    match v
    case Arr(id) => ArraySafe(g, id, piiKey, depth + 1);
    case Obj(id) => ObjectSafe(g, id, depth + 1);
    case _ =>
  }

  lemma {:induction false} ObjectSafe(g: Graph, id: nat, depth: nat)
    ensures Safe(CleanObject(g, id, depth), Left(depth) + 1)
    decreases Left(depth), 2, 0
  {
    hide KeyMatchesPII, IsUuidIdKey, Redacted, More, LeafText, CleanFields, CUT, REDACTED;
    LeafTexts();
    assert Safe(TStr(CUT), 0);
    if depth <= MAX_DEPTH {
      FieldsSafe(g, g.Entries(id), depth);
    }
  }

  lemma {:induction false} FieldsSafe(g: Graph, entries: seq<Entry>, depth: nat)
    requires depth <= MAX_DEPTH
    ensures forall i | 0 <= i < |CleanFields(g, entries, depth)| :: Safe(CleanFields(g, entries, depth)[i].tree, Left(depth))
    decreases Left(depth), 1, |entries|
  {
    hide CleanValue, Safe, CUT, REDACTED;
    if entries != [] {
      var e := entries[|entries| - 1];
      FieldsSafe(g, entries[..|entries| - 1], depth);
      ValueSafe(g, e.key, e.value, depth);
    }
  }

  lemma {:induction false} ValueSafe(g: Graph, key: string, v: Value, depth: nat)
    requires depth <= MAX_DEPTH
    ensures Safe(CleanValue(g, key, v, depth), Left(depth))
    decreases Left(depth), 0, 0
  {
    hide KeyMatchesPII, IsUuidIdKey, Redacted, More, LeafText, CleanArray, CleanObject, CUT, REDACTED;
    LeafTexts();
    match v
    case Arr(id) => ArraySafe(g, id, KeyMatchesPII(key), depth + 1);
    case Obj(id) => ObjectSafe(g, id, depth + 1);
    case _ =>
  }

  /** `sanitizeObject`, on any value graph: no pattern in any leaf, at most 12 levels. */
  lemma SanitizedIsSafe(g: Graph, id: nat)
    ensures Safe(CleanObject(g, id, 0), 12)
  {
    ObjectSafe(g, id, 0);
  }

  // --- Why the truncation marker is an exception ---

  /** The SSN pattern matches every marker whose number has nine digits. */
  lemma NineDigitMarker(n: nat)
    requires |Decimal.Print(n)| == 9
    ensures !Clean(More(n))
  {
    hide SsnBody, CardBody, EmailBody, PhoneBody;
    var s, digits := More(n), Decimal.Print(n);
    assert forall k | 2 <= k < 11 :: s[k] == digits[k - 2];
    assert s[1] == '\U{2026}' && s[11] == ' ';
    NineDigitsMatch(s, 2);
    assert Boundary(s, 2) && Boundary(s, 11);
    BoundedHit(SsnBody(), s, 2, 11);
  }

  function Keys(entries: seq<Entry>): seq<string> {
    if entries == [] then []
    else
      var e := entries[|entries| - 1];
      Keys(entries[..|entries| - 1]) + (if e.key == "__proto__" then [] else [e.key])
  }

  /** The redaction, the depth cut or a truncation marker. */
  ghost predicate Standing(s: string) {
    s == REDACTED || s == CUT || exists n: nat :: s == More(n)
  }

  lemma StandingTexts()
    ensures Standing(REDACTED) && Standing(CUT) && forall n: nat :: Standing(More(n))
  {
    hide More;
  }

  /** Every string reached through arrays only is a standing text. */
  ghost predicate FullyRedacted(t: Tree)
    decreases t
  {
    match t
    case TStr(s) => Standing(s)
    case TArr(ts) => forall i | 0 <= i < |ts| :: FullyRedacted(ts[i])
    case _ => true
  }

  /** An array under a PII key lets no string through, however deep its arrays nest. */
  lemma {:induction false} PiiArrayRedacted(g: Graph, id: nat, depth: nat)
    ensures FullyRedacted(CleanArray(g, id, true, depth))
    decreases Left(depth)
  {
    ArrayStep(g, id, true, depth);
    StandingTexts();
    hide Redacted, More, CleanArray, CleanElements, CleanElement, CleanObject, Standing, CUT, REDACTED;
    var ts := CleanArray(g, id, true, depth).elements;
    var els := g.Elements(id);
    forall i | 0 <= i < |ts| ensures FullyRedacted(ts[i]) {
      if depth > MAX_DEPTH {
        assert ts[i] == TStr(CUT);
      } else if i < Walked(|els|) {
        ElementsAt(g, els, true, depth, Walked(|els|), i);
        PiiElementRedacted(g, els[i], depth);
      } else {
        assert ts[i] == TStr(More(|els| - MAX_ARRAY_ELEMENTS));
      }
    }
  }

  lemma {:induction false} PiiElementRedacted(g: Graph, v: Value, depth: nat)
    requires depth <= MAX_DEPTH
    ensures FullyRedacted(CleanElement(g, v, true, depth))
    decreases Left(depth), 0
  {
    ElementStep(g, v, true, depth);
    LeftDrops(depth);
    StandingTexts();
    hide Redacted, CleanArray, CleanElement, CleanObject, Standing, CUT, REDACTED, Left;
    match v
    case Arr(id) => PiiArrayRedacted(g, id, depth + 1);
    case _ =>
  }

  /** What may stand under a PII key: the redaction, an array of ids as it was, or an array that lets no
      string through. */
  ghost predicate PiiValue(t: Tree) {
    t == TStr(REDACTED) || t.Shared? || (t.TArr? && FullyRedacted(t))
  }

  lemma PiiValueKept(g: Graph, key: string, v: Value, depth: nat)
    requires depth <= MAX_DEPTH && KeyMatchesPII(key)
    ensures PiiValue(CleanValue(g, key, v, depth))
  {
    hide Redacted, CleanArray, IsUuidIdKey, KeyMatchesPII, FullyRedacted, CUT, REDACTED;
    match v
    case Arr(id) => PiiArrayRedacted(g, id, depth + 1);
    case _ =>
  }

  /** Above the depth cut an object keeps its keys, in order, and a PII key lets no string of its value
      through, at any depth of nested arrays. */
  lemma {:induction false} KeysKept(g: Graph, entries: seq<Entry>, depth: nat)
    requires depth <= MAX_DEPTH
    ensures |CleanFields(g, entries, depth)| == |Keys(entries)|
    ensures forall i | 0 <= i < |Keys(entries)| ::
              var f := CleanFields(g, entries, depth)[i];
              f.key == Keys(entries)[i] && (KeyMatchesPII(f.key) ==> PiiValue(f.tree))
    decreases |entries|
  {
    hide KeyMatchesPII, CleanValue, PiiValue, CUT, REDACTED;
    if entries != [] {
      var e := entries[|entries| - 1];
      KeysKept(g, entries[..|entries| - 1], depth);
      if KeyMatchesPII(e.key) {
        PiiValueKept(g, e.key, e.value, depth);
      }
    }
  }

  /** The promise ends at an object: a string behind a plain key in it comes through. */
  lemma ObjectEndsPromise(depth: nat, key: string, text: string)
    requires depth < MAX_DEPTH && !KeyMatchesPII(key) && key != "__proto__" && Clean(text)
    ensures var g := Graph([[Obj(0)]], [[Entry(key, Str(text))]]);
            CleanArray(g, 0, true, depth) == TArr([TObj([Field(key, TStr(text))])])
  {
    hide *;
    var g := Graph([[Obj(0)]], [[Entry(key, Str(text))]]);
    Single(g, [Obj(0)], [Entry(key, Str(text))]);
    OneElement(g, 0, Obj(0), true, depth);
    OneField(g, 0, Entry(key, Str(text)), depth + 1);
    ElementStep(g, Obj(0), true, depth);
    ValueStep(g, key, Str(text), depth + 1);
    UnchangedIffClean(text);
  }

  lemma Single(g: Graph, els: seq<Value>, entries: seq<Entry>)
    requires g == Graph([els], [entries])
    ensures g.Elements(0) == els && g.Entries(0) == entries
  {
  }

  lemma OneElement(g: Graph, id: nat, v: Value, piiKey: bool, depth: nat)
    requires depth <= MAX_DEPTH && g.Elements(id) == [v]
    ensures CleanArray(g, id, piiKey, depth) == TArr([CleanElement(g, v, piiKey, depth)])
  {
    hide *;
    OneWalked();
    ArrayStep(g, id, piiKey, depth);
    ElementsNext(g, [v], piiKey, depth, 0);
    assert [] + [CleanElement(g, v, piiKey, depth)] + [] == [CleanElement(g, v, piiKey, depth)];
  }

  lemma RootEntered()
    ensures 0 <= MAX_DEPTH
  {
  }

  lemma OneWalked()
    ensures Walked(1) == 1 && Marker(1) == [] && 1 <= MAX_DEPTH
  {
  }

  lemma OneField(g: Graph, id: nat, e: Entry, depth: nat)
    requires depth <= MAX_DEPTH && g.Entries(id) == [e] && e.key != "__proto__"
    ensures CleanObject(g, id, depth) == TObj([Field(e.key, CleanValue(g, e.key, e.value, depth))])
  {
    hide *;
    ObjectStep(g, id, depth);
    FieldsNext(g, [], e, depth);
    assert [] + [e] == [e];
    assert [] + [Field(e.key, CleanValue(g, e.key, e.value, depth))] == [Field(e.key, CleanValue(g, e.key, e.value, depth))];
  }

  // --- Applying the sanitiser to its own output ---

  /** Value `v` of graph `g` is a copy of the tree; a shared array is the very same array. */
  ghost predicate Represents(g: Graph, v: Value, t: Tree)
    decreases t
  {
    match t
    case TStr(s) => v == Str(s)
    case TOther(c) => v == Other(c)
    case TArr(ts) => v.Arr? && |g.Elements(v.id)| == |ts| && forall i | 0 <= i < |ts| :: Represents(g, g.Elements(v.id)[i], ts[i])
    case TObj(fs) => v.Obj? && RepresentsFields(g, g.Entries(v.id), fs)
    case Shared(id) => v == Arr(id)
  }

  ghost predicate RepresentsFields(g: Graph, entries: seq<Entry>, fs: seq<Field>)
    decreases fs
  {
    |entries| == |fs| && forall i | 0 <= i < |fs| :: entries[i].key == fs[i].key && Represents(g, entries[i].value, fs[i].tree)
  }

  /** Every array that the walk visits has at most 1001 elements. */
  ghost predicate ShortArray(g: Graph, id: nat, depth: nat)
    decreases Left(depth), 2
  {
    hide *;
    depth > MAX_DEPTH ||
    var els := g.Elements(id);
    |els| <= MAX_ARRAY_ELEMENTS + 1 && forall i | 0 <= i < Walked(|els|) :: ShortElement(g, els[i], depth)
  }

  ghost predicate ShortElement(g: Graph, v: Value, depth: nat)
    requires depth <= MAX_DEPTH
    decreases Left(depth), 0
  {
    hide *;
    LeftDrops(depth);
    match v
    case Arr(id) => ShortArray(g, id, depth + 1)
    case Obj(id) => ShortObject(g, id, depth + 1)
    case _ => true
  }

  ghost predicate ShortObject(g: Graph, id: nat, depth: nat)
    decreases Left(depth), 2
  {
    hide *;
    depth > MAX_DEPTH || ShortFields(g, g.Entries(id), depth)
  }

  ghost predicate ShortFields(g: Graph, entries: seq<Entry>, depth: nat)
    requires depth <= MAX_DEPTH
    decreases Left(depth), 1
  {
    hide *;
    forall i | 0 <= i < |entries| && entries[i].key != "__proto__" :: ShortValue(g, entries[i].key, entries[i].value, depth)
  }

  ghost predicate ShortValue(g: Graph, key: string, v: Value, depth: nat)
    requires depth <= MAX_DEPTH
    decreases Left(depth), 0
  {
    hide *;
    LeftDrops(depth);
    match v
    case Arr(id) => IsUuidIdKey(key) || ShortArray(g, id, depth + 1)
    case Obj(id) => KeyMatchesPII(key) || ShortObject(g, id, depth + 1)
    case _ => true
  }

  /** One array: the second walk agrees with the first exactly if every visited array is short. */
  lemma {:induction false} ArrayTwice(g: Graph, id: nat, piiKey: bool, depth: nat, h: Graph, jd: nat)
    requires Represents(h, Arr(jd), CleanArray(g, id, piiKey, depth))
    ensures CleanArray(h, jd, piiKey, depth) == CleanArray(g, id, piiKey, depth) <==> ShortArray(g, id, depth)
    ensures ShortArray(h, jd, depth)
    decreases Left(depth), 2, 0
  {
    ArrayStep(g, id, piiKey, depth);
    ArrayStep(h, jd, piiKey, depth);
    hide CleanArray, CleanElements, More, ShortElement, CleanElement, KeyMatchesPII, Redacted, CUT, REDACTED;
    if depth <= MAX_DEPTH {
      var ts := CleanArray(g, id, piiKey, depth).elements;
      var us := CleanArray(h, jd, piiKey, depth).elements;
      var els, els' := g.Elements(id), h.Elements(jd);
      var n := Walked(|els|);
      assert |els'| == |ts| == n + |Marker(|els|)| && Walked(|els'|) == n;
      forall i | 0 <= i < n
        ensures us[i] == ts[i] <==> ShortElement(g, els[i], depth)
        ensures ShortElement(h, els'[i], depth)
      {
        ElementsAt(g, els, piiKey, depth, n, i);
        ElementsAt(h, els', piiKey, depth, n, i);
        assert Represents(h, els'[i], ts[i]);
        ElementTwice(g, els[i], piiKey, depth, h, els'[i]);
      }
      MarkerTwice(|els|);
      assert us == ts <==> us[..n] == ts[..n] && us[n..] == ts[n..];
      assert us[n..] == Marker(|els'|) && ts[n..] == Marker(|els|);
    }
  }

  /** The marker settles at "1 more". */
  lemma MarkerTwice(length: nat)
    ensures var n := Walked(length) + |Marker(length)|; Marker(n) == Marker(length) <==> length <= MAX_ARRAY_ELEMENTS + 1
  {
    if length > MAX_ARRAY_ELEMENTS {
      var n := length - MAX_ARRAY_ELEMENTS;
      if More(1) == More(n) {
        MoreInjective(1, n);
      }
    }
  }

  lemma MoreInjective(m: nat, n: nat)
    requires More(m) == More(n)
    ensures m == n
  {
    var x, y := Decimal.Print(m), Decimal.Print(n);
    assert |More(m)| == 8 + |x| && |More(n)| == 8 + |y|;
    assert More(m)[2..2 + |x|] == x && More(n)[2..2 + |y|] == y;
    Decimal.PrintInjective(m, n);
  }

  lemma {:induction false} ElementTwice(g: Graph, v: Value, piiKey: bool, depth: nat, h: Graph, w: Value)
    requires depth <= MAX_DEPTH && Represents(h, w, CleanElement(g, v, piiKey, depth))
    ensures CleanElement(h, w, piiKey, depth) == CleanElement(g, v, piiKey, depth) <==> ShortElement(g, v, depth)
    ensures ShortElement(h, w, depth)
    decreases Left(depth), 0, 0
  {
    hide KeyMatchesPII, Redacted, CleanArray, CleanObject, ShortArray, ShortObject, CUT, REDACTED;
    match v
    case Arr(id) => ArrayTwice(g, id, piiKey, depth + 1, h, w.id);
    case Obj(id) => ObjectTwice(g, id, depth + 1, h, w.id);
    case Str(s) => RedactedTwice(s);
    case Other(_) =>
  }

  lemma {:induction false} ObjectTwice(g: Graph, id: nat, depth: nat, h: Graph, jd: nat)
    requires Represents(h, Obj(jd), CleanObject(g, id, depth))
    ensures CleanObject(h, jd, depth) == CleanObject(g, id, depth) <==> ShortObject(g, id, depth)
    ensures ShortObject(h, jd, depth)
    decreases Left(depth), 2, 0
  {
    hide CleanFields, ShortFields, RepresentsFields, CUT, REDACTED;
    if depth <= MAX_DEPTH {
      FieldsTwice(g, g.Entries(id), depth, h, h.Entries(jd));
    }
  }

  lemma {:induction false} FieldsTwice(g: Graph, entries: seq<Entry>, depth: nat, h: Graph, copies: seq<Entry>)
    requires depth <= MAX_DEPTH && RepresentsFields(h, copies, CleanFields(g, entries, depth))
    ensures CleanFields(h, copies, depth) == CleanFields(g, entries, depth) <==> ShortFields(g, entries, depth)
    ensures ShortFields(h, copies, depth)
    decreases Left(depth), 1, |entries|
  {
    hide CleanValue, ShortValue, Represents, CUT, REDACTED;
    if entries != [] {
      var n := |entries| - 1;
      var front, e := entries[..n], entries[n];
      ShortFieldsSnoc(g, entries, depth);
      if e.key == "__proto__" {
        FieldsTwice(g, front, depth, h, copies);
      } else {
        var t := CleanValue(g, e.key, e.value, depth);
        var fs := CleanFields(g, front, depth);
        assert CleanFields(g, entries, depth) == fs + [Field(e.key, t)];
        RepresentsSnoc(h, copies, fs, Field(e.key, t));
        var m := |fs|;
        FieldsTwice(g, front, depth, h, copies[..m]);
        ValueTwice(g, e.key, e.value, depth, h, copies[m].value);
        var u := CleanValue(h, e.key, copies[m].value, depth);
        var gs := CleanFields(h, copies[..m], depth);
        assert CleanFields(h, copies, depth) == gs + [Field(e.key, u)];
        SnocEqual(gs, Field(e.key, u), fs, Field(e.key, t));
        ShortFieldsSnoc(h, copies, depth);
      }
    }
  }

  lemma ShortFieldsSnoc(g: Graph, entries: seq<Entry>, depth: nat)
    requires depth <= MAX_DEPTH && entries != []
    ensures var n := |entries| - 1; var e := entries[n];
            ShortFields(g, entries, depth)
            <==> ShortFields(g, entries[..n], depth) && (e.key != "__proto__" ==> ShortValue(g, e.key, e.value, depth))
  {
    hide ShortValue, CUT, REDACTED;
    var front := entries[..|entries| - 1];
    assert forall i | 0 <= i < |front| :: front[i] == entries[i];
    assert entries == front + [entries[|entries| - 1]];
  }

  lemma RepresentsSnoc(h: Graph, copies: seq<Entry>, fs: seq<Field>, f: Field)
    requires RepresentsFields(h, copies, fs + [f])
    ensures |copies| == |fs| + 1 && RepresentsFields(h, copies[..|fs|], fs)
    ensures copies[|fs|].key == f.key && Represents(h, copies[|fs|].value, f.tree)
  {
    hide Represents, CUT, REDACTED;
    var all := fs + [f];
    assert all[|fs|] == f;
    assert forall i | 0 <= i < |fs| :: all[i] == fs[i] && copies[..|fs|][i] == copies[i];
  }

  lemma SnocEqual<T>(xs: seq<T>, x: T, ys: seq<T>, y: T)
    ensures xs + [x] == ys + [y] <==> xs == ys && x == y
  {
    if xs + [x] == ys + [y] {
      assert |xs| == |ys|;
      assert (xs + [x])[|xs|] == x && (ys + [y])[|ys|] == y;
      assert (xs + [x])[..|xs|] == xs && (ys + [y])[..|ys|] == ys;
    }
  }

  lemma {:induction false} ValueTwice(g: Graph, key: string, v: Value, depth: nat, h: Graph, w: Value)
    requires depth <= MAX_DEPTH && Represents(h, w, CleanValue(g, key, v, depth))
    ensures CleanValue(h, key, w, depth) == CleanValue(g, key, v, depth) <==> ShortValue(g, key, v, depth)
    ensures ShortValue(h, key, w, depth)
    decreases Left(depth), 0, 0
  {
    hide KeyMatchesPII, IsUuidIdKey, Redacted, CleanArray, CleanObject, ShortArray, ShortObject, CUT, REDACTED;
    match v
    case Arr(id) =>
      if !IsUuidIdKey(key) { ArrayTwice(g, id, KeyMatchesPII(key), depth + 1, h, w.id); }
    case Obj(id) =>
      if !KeyMatchesPII(key) { ObjectTwice(g, id, depth + 1, h, w.id); }
    case Str(s) => RedactedTwice(s);
    case Other(_) =>
  }

  /** `sanitizeObject` applied to a copy of its own output returns that output if and only if
      no array that the first walk visits has more than 1001 elements. */
  lemma SanitizeTwice(g: Graph, id: nat, h: Graph, jd: nat)
    requires Represents(h, Obj(jd), CleanObject(g, id, 0))
    ensures CleanObject(h, jd, 0) == CleanObject(g, id, 0) <==> ShortObject(g, id, 0)
  {
    ObjectTwice(g, id, 0, h, jd);
  }

  /** Whatever the arrays, the second application is final: a third changes nothing. */
  lemma SanitizeThrice(g: Graph, id: nat, h: Graph, jd: nat, k: Graph, kd: nat)
    requires Represents(h, Obj(jd), CleanObject(g, id, 0))
    requires Represents(k, Obj(kd), CleanObject(h, jd, 0))
    ensures CleanObject(k, kd, 0) == CleanObject(h, jd, 0)
  {
    ObjectTwice(g, id, 0, h, jd);
    ObjectTwice(h, jd, 0, k, kd);
  }

  function Numbers(n: nat): (vs: seq<Value>)
    ensures |vs| == n && forall i | 0 <= i < n :: vs[i] == Other(0)
  {
    seq(n, _ => Other(0))
  }

  /** An array of 1002 numbers is cut with the marker of two dropped elements, and the result of that
      with the marker of one. */
  lemma LongArrayDiffers()
    ensures var g, h := Graph([Numbers(1002)], []), Graph([Numbers(1000) + [Str(More(2))]], []);
            && Represents(h, Arr(0), CleanArray(g, 0, false, 1))
            && CleanArray(h, 0, false, 1) != CleanArray(g, 0, false, 1)
  {
    assert MAX_ARRAY_ELEMENTS == 1000;
    hide *;
    var g, h := Graph([Numbers(1002)], []), Graph([Numbers(1000) + [Str(More(2))]], []);
    OneWalked();
    CutArray(g, h, 1002);
    ArrayTwice(g, 0, false, 1, h, 0);
    LongArray(g, 0, 1);
  }

  lemma CutArray(g: Graph, h: Graph, n: nat)
    requires n > MAX_ARRAY_ELEMENTS && g == Graph([Numbers(n)], [])
    requires h == Graph([Numbers(MAX_ARRAY_ELEMENTS) + [Str(More(n - MAX_ARRAY_ELEMENTS))]], [])
    ensures g.Elements(0) == Numbers(n)
    ensures Represents(h, Arr(0), CleanArray(g, 0, false, 1))
  {
    hide *;
    var more := More(n - MAX_ARRAY_ELEMENTS);
    OnlyArray(Numbers(n));
    OnlyArray(Numbers(MAX_ARRAY_ELEMENTS) + [Str(more)]);
    OneWalked();
    LongArray(g, 0, 1);
    ElementStep(g, Other(0), false, 1);
    LeavesRepresented(h, 0, more);
    var ts := CleanArray(g, 0, false, 1).elements;
    forall i | 0 <= i < MAX_ARRAY_ELEMENTS ensures ts[i] == TOther(0) {
      assert Numbers(n)[i] == Other(0);
    }
    ArrayRepresented(h, 0, ts);
  }

  lemma OnlyArray(els: seq<Value>)
    ensures Graph([els], []).Elements(0) == els
  {
  }

  lemma LeavesRepresented(h: Graph, code: int, text: string)
    ensures Represents(h, Other(code), TOther(code)) && Represents(h, Str(text), TStr(text))
  {
  }

  lemma ArrayRepresented(h: Graph, id: nat, ts: seq<Tree>)
    requires |h.Elements(id)| == |ts| && forall i | 0 <= i < |ts| :: Represents(h, h.Elements(id)[i], ts[i])
    ensures Represents(h, Arr(id), TArr(ts))
  {
  }

  lemma LongArray(g: Graph, id: nat, depth: nat)
    requires depth <= MAX_DEPTH && |g.Elements(id)| > MAX_ARRAY_ELEMENTS
    ensures var els, ts := g.Elements(id), CleanArray(g, id, false, depth).elements;
            && |ts| == MAX_ARRAY_ELEMENTS + 1 && ts[MAX_ARRAY_ELEMENTS] == TStr(More(|els| - MAX_ARRAY_ELEMENTS))
            && forall i | 0 <= i < MAX_ARRAY_ELEMENTS :: ts[i] == CleanElement(g, els[i], false, depth)
    ensures |g.Elements(id)| > MAX_ARRAY_ELEMENTS + 1 ==> !ShortArray(g, id, depth)
  {
    ArrayStep(g, id, false, depth);
    hide Redacted, More, CleanArray, CleanElements, CleanElement, ShortElement, CUT, REDACTED;
    var els := g.Elements(id);
    forall i | 0 <= i < MAX_ARRAY_ELEMENTS
      ensures CleanElements(g, els, false, depth, MAX_ARRAY_ELEMENTS)[i] == CleanElement(g, els[i], false, depth)
    {
      ElementsAt(g, els, false, depth, MAX_ARRAY_ELEMENTS, i);
    }
  }

  // --- What comes through unchanged ---

  /** Nothing in the array calls for redaction or truncation: it is short, or ends in the marker of one
      dropped element, and so is everything that the walk visits below it. */
  ghost predicate KeptArray(g: Graph, id: nat, piiKey: bool, depth: nat)
    decreases Left(depth), 2
  {
    hide Clean, KeyMatchesPII, IsUuidIdKey, CUT, More;
    var els := g.Elements(id);
    if depth > MAX_DEPTH then els == [Str(CUT)]
    else
      && |els| <= MAX_ARRAY_ELEMENTS + 1
      && (|els| == MAX_ARRAY_ELEMENTS + 1 ==> els[MAX_ARRAY_ELEMENTS] == Str(More(1)))
      && forall i | 0 <= i < Walked(|els|) :: KeptElement(g, els[i], piiKey, depth)
  }

  ghost predicate KeptElement(g: Graph, v: Value, piiKey: bool, depth: nat)
    requires depth <= MAX_DEPTH
    decreases Left(depth), 0
  {
    hide *;
    LeftDrops(depth);
    match v
    case Arr(id) => KeptArray(g, id, piiKey, depth + 1)
    case Obj(id) => KeptObject(g, id, depth + 1)
    case Str(s) => if piiKey then s == REDACTED else Clean(s)
    case Other(_) => true
  }

  ghost predicate KeptObject(g: Graph, id: nat, depth: nat)
    decreases Left(depth), 2
  {
    hide *;
    if depth > MAX_DEPTH then g.Entries(id) == [Entry("__truncated", Str(CUT))] else KeptFields(g, g.Entries(id), depth)
  }

  ghost predicate KeptFields(g: Graph, entries: seq<Entry>, depth: nat)
    requires depth <= MAX_DEPTH
    decreases Left(depth), 1
  {
    hide *;
    forall i | 0 <= i < |entries| :: entries[i].key != "__proto__" && KeptValue(g, entries[i].key, entries[i].value, depth)
  }

  ghost predicate KeptValue(g: Graph, key: string, v: Value, depth: nat)
    requires depth <= MAX_DEPTH
    decreases Left(depth), 0
  {
    hide *;
    LeftDrops(depth);
    match v
    case Arr(id) => IsUuidIdKey(key) || KeptArray(g, id, KeyMatchesPII(key), depth + 1)
    case Obj(id) => !KeyMatchesPII(key) && KeptObject(g, id, depth + 1)
    case Str(s) => if KeyMatchesPII(key) then s == REDACTED else Clean(s)
    case Other(_) => !KeyMatchesPII(key)
  }

  lemma {:induction false} ArrayKept(g: Graph, id: nat, piiKey: bool, depth: nat)
    ensures Represents(g, Arr(id), CleanArray(g, id, piiKey, depth)) <==> KeptArray(g, id, piiKey, depth)
    decreases Left(depth), 2, 0
  {
    hide More, KeptElement, CleanElement, KeyMatchesPII, Redacted, CUT, REDACTED;
    var els, ts := g.Elements(id), CleanArray(g, id, piiKey, depth).elements;
    if depth > MAX_DEPTH {
      assert ts == [TStr(CUT)];
      assert Represents(g, Arr(id), TArr(ts)) <==> |els| == 1 && Represents(g, els[0], ts[0]);
    } else {
      var n := Walked(|els|);
      forall i | 0 <= i < n ensures Represents(g, els[i], ts[i]) <==> KeptElement(g, els[i], piiKey, depth) {
        ElementsAt(g, els, piiKey, depth, n, i);
        ElementKept(g, els[i], piiKey, depth);
      }
      assert |ts| == n + |Marker(|els|)|;
      if |els| == MAX_ARRAY_ELEMENTS + 1 {
        assert ts[n] == TStr(More(1));
        assert Represents(g, els[n], ts[n]) <==> els[n] == Str(More(1));
      }
    }
  }

  lemma {:induction false} ElementKept(g: Graph, v: Value, piiKey: bool, depth: nat)
    requires depth <= MAX_DEPTH
    ensures Represents(g, v, CleanElement(g, v, piiKey, depth)) <==> KeptElement(g, v, piiKey, depth)
    decreases Left(depth), 0, 0
  {
    hide KeyMatchesPII, Redacted, Clean, CleanArray, CleanObject, KeptArray, KeptObject, CUT, REDACTED;
    match v
    case Arr(id) => ArrayKept(g, id, piiKey, depth + 1);
    case Obj(id) => ObjectKept(g, id, depth + 1);
    case Str(s) => UnchangedIffClean(s);
    case Other(_) =>
  }

  lemma {:induction false} ObjectKept(g: Graph, id: nat, depth: nat)
    ensures Represents(g, Obj(id), CleanObject(g, id, depth)) <==> KeptObject(g, id, depth)
    decreases Left(depth), 2, 0
  {
    hide CleanFields, KeptFields, CUT, REDACTED;
    if depth <= MAX_DEPTH {
      FieldsKept(g, g.Entries(id), depth);
    } else {
      var fs := CleanObject(g, id, depth).fields;
      assert fs == [Field("__truncated", TStr(CUT))];
      assert RepresentsFields(g, g.Entries(id), fs) <==>
             |g.Entries(id)| == 1 && g.Entries(id)[0].key == fs[0].key && Represents(g, g.Entries(id)[0].value, fs[0].tree);
    }
  }

  lemma {:induction false} FieldsKept(g: Graph, entries: seq<Entry>, depth: nat)
    requires depth <= MAX_DEPTH
    ensures RepresentsFields(g, entries, CleanFields(g, entries, depth)) <==> KeptFields(g, entries, depth)
    ensures |CleanFields(g, entries, depth)| <= |entries|
    decreases Left(depth), 1, |entries|
  {
    hide CleanValue, KeptValue, Represents, RepresentsFields, KeptFields, CUT, REDACTED;
    if entries == [] {
      NoFields(g, depth);
    } else {
      var n := |entries| - 1;
      var front, e := entries[..n], entries[n];
      FieldsKept(g, front, depth);
      KeptFieldsSnoc(g, entries, depth);
      if e.key == "__proto__" {
        assert CleanFields(g, entries, depth) == CleanFields(g, front, depth);
        RepresentsLength(g, entries, CleanFields(g, entries, depth));
      } else {
        ValueKept(g, e.key, e.value, depth);
        var fs, f := CleanFields(g, front, depth), Field(e.key, CleanValue(g, e.key, e.value, depth));
        assert CleanFields(g, entries, depth) == fs + [f];
        RepresentsSnocExactly(g, entries, fs, f);
        RepresentsLength(g, front, fs);
      }
    }
  }

  lemma NoFields(g: Graph, depth: nat)
    requires depth <= MAX_DEPTH
    ensures RepresentsFields(g, [], []) && KeptFields(g, [], depth) && CleanFields(g, [], depth) == []
  {
  }

  lemma RepresentsLength(g: Graph, entries: seq<Entry>, fs: seq<Field>)
    ensures RepresentsFields(g, entries, fs) ==> |entries| == |fs|
  {
  }

  lemma KeptFieldsSnoc(g: Graph, entries: seq<Entry>, depth: nat)
    requires depth <= MAX_DEPTH && entries != []
    ensures var n := |entries| - 1; var e := entries[n];
            KeptFields(g, entries, depth)
            <==> KeptFields(g, entries[..n], depth) && e.key != "__proto__" && KeptValue(g, e.key, e.value, depth)
  {
    hide KeptValue, CUT, REDACTED;
    var front := entries[..|entries| - 1];
    assert forall i | 0 <= i < |front| :: front[i] == entries[i];
    assert entries == front + [entries[|entries| - 1]];
  }

  /** Entry by entry, in both directions; too few fields represent nothing. */
  lemma RepresentsSnocExactly(g: Graph, entries: seq<Entry>, fs: seq<Field>, f: Field)
    requires entries != [] && |fs| <= |entries| - 1
    ensures var n := |entries| - 1;
            RepresentsFields(g, entries, fs + [f])
            <==> RepresentsFields(g, entries[..n], fs) && entries[n].key == f.key && Represents(g, entries[n].value, f.tree)
  {
    hide Represents, CUT, REDACTED;
    var n, all := |entries| - 1, fs + [f];
    if |fs| == n {
      assert all[n] == f;
      assert forall i | 0 <= i < n :: all[i] == fs[i] && entries[..n][i] == entries[i];
    }
  }

  lemma {:induction false} ValueKept(g: Graph, key: string, v: Value, depth: nat)
    requires depth <= MAX_DEPTH
    ensures Represents(g, v, CleanValue(g, key, v, depth)) <==> KeptValue(g, key, v, depth)
    decreases Left(depth), 0, 0
  {
    hide KeyMatchesPII, IsUuidIdKey, Redacted, Clean, CleanArray, CleanObject, KeptArray, KeptObject, CUT, REDACTED;
    match v
    case Arr(id) =>
      if !IsUuidIdKey(key) { ArrayKept(g, id, KeyMatchesPII(key), depth + 1); }
    case Obj(id) =>
      if !KeyMatchesPII(key) { ObjectKept(g, id, depth + 1); }
    case Str(s) => UnchangedIffClean(s);
    case Other(_) =>
  }

  /** `sanitizeObject` returns a copy of its argument if and only if nothing in it is sensitive, too
      deep, too long or hidden behind a PII key; everything else comes through as it is. */
  lemma SanitizedIsCopy(g: Graph, id: nat)
    ensures Represents(g, Obj(id), CleanObject(g, id, 0)) <==> KeptObject(g, id, 0)
  {
    ObjectKept(g, id, 0);
  }
}
