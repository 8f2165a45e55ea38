/** src/utils/pii-filter.ts: what `sanitizeObject` returns, by recursion on a finite tree and with the
    source's limits written out. The walk itself goes over a graph, possibly with cycles, and counts
    depths; the tree is the value itself if it is finite, and in any case its unrolling. */
module FiniteValues {
  import opened PiiForms
  import opened PiiKeys
  import opened PiiPatterns
  import opened Sanitizer
  import Decimal
  import PiiJson

  /** An element of an array under a key; `levels` more objects and arrays may still be entered. */
  function Element(t: Tree, piiKey: bool, levels: nat): Tree
    decreases t, 0
  {
    match t
    case TStr(s) => TStr(if piiKey then "[REDACTED]" else Redacted(s))
    case TArr(ts) =>
      if levels == 0 then TArr([TStr("[MAX-DEPTH]")])
      else TArr(Elements(if |ts| <= 1000 then ts else ts[..1000], piiKey, levels - 1) + Dropped(|ts|))
    case TObj(fs) =>
      if levels == 0 then TObj([Field("__truncated", TStr("[MAX-DEPTH]"))]) else TObj(Properties(fs, levels - 1))
    case _ => t
  }

  function Elements(ts: seq<Tree>, piiKey: bool, levels: nat): (out: seq<Tree>)
    ensures |out| == |ts|
    decreases ts
  {
    if ts == [] then [] else Elements(ts[..|ts| - 1], piiKey, levels) + [Element(ts[|ts| - 1], piiKey, levels)]
  }

  /** The text in place of what stands behind the thousandth element. */
  function Dropped(length: nat): seq<Tree> {
    if length <= 1000 then [] else [TStr("[\U{2026}" + Decimal.Print(length - 1000) + " more]")]
  }

  function Properties(fs: seq<Field>, levels: nat): seq<Field>
    decreases fs
  {
    if fs == [] then []
    else
      var f := fs[|fs| - 1];
      Properties(fs[..|fs| - 1], levels) + (if f.key == "__proto__" then [] else [Field(f.key, Property(f.key, f.tree, levels))])
  }

  /** Under a PII key only arrays are entered, and nothing but the redaction comes out of anything else. */
  function Property(key: string, t: Tree, levels: nat): Tree
    decreases t, 1
  {
    match t
    case TArr(_) => Element(t, KeyMatchesPII(key), levels)
    case Shared(_) => t
    case _ => if KeyMatchesPII(key) then TStr("[REDACTED]") else Element(t, false, levels)
  }

  /** The arrays that are handed on as they are stand under the keys that end in "ids", and nowhere else. */
  ghost predicate Written(t: Tree)
    decreases t
  {
    match t
    case TArr(ts) => forall i | 0 <= i < |ts| :: !ts[i].Shared? && Written(ts[i])
    case TObj(fs) => forall i | 0 <= i < |fs| :: Written(fs[i].tree) && WrittenUnder(fs[i].key, fs[i].tree)
    case _ => true
  }

  ghost predicate WrittenUnder(key: string, t: Tree) {
    (t.Shared? ==> IsUuidIdKey(key)) && (t.TArr? ==> !IsUuidIdKey(key))
  }

  /** Up to `levels` levels of objects and arrays below it, the value looks like the tree. */
  ghost predicate Agrees(g: Graph, v: Value, t: Tree, levels: nat)
    decreases levels, 0
  {
    match t
    case TStr(s) => v == Str(s)
    case TOther(c) => v == Other(c)
    case TArr(ts) => v.Arr? && (levels > 0 ==> ElementsAgree(g, g.Elements(v.id), ts, levels - 1))
    case TObj(fs) => v.Obj? && (levels > 0 ==> PropertiesAgree(g, g.Entries(v.id), fs, levels - 1))
    case Shared(id) => v == Arr(id)
  }

  ghost predicate ElementsAgree(g: Graph, els: seq<Value>, ts: seq<Tree>, levels: nat)
    decreases levels, 1
  {
    |els| == |ts| && forall i | 0 <= i < |ts| :: !ts[i].Shared? && Agrees(g, els[i], ts[i], levels)
  }

  ghost predicate PropertiesAgree(g: Graph, entries: seq<Entry>, fs: seq<Field>, levels: nat)
    decreases levels, 1
  {
    && |entries| == |fs|
    && forall i | 0 <= i < |fs| ::
         entries[i].key == fs[i].key && WrittenUnder(fs[i].key, fs[i].tree) && Agrees(g, entries[i].value, fs[i].tree, levels)
  }

  /** The value as a tree, empty behind so many levels. */
  ghost function Unrolled(g: Graph, v: Value, levels: nat): Tree
    decreases levels, 0
  {
    match v
    case Str(s) => TStr(s)
    case Other(c) => TOther(c)
    case Arr(id) => TArr(if levels == 0 then [] else UnrolledElements(g, g.Elements(id), levels - 1))
    case Obj(id) => TObj(if levels == 0 then [] else UnrolledProperties(g, g.Entries(id), levels - 1))
  }

  ghost function UnrolledElements(g: Graph, els: seq<Value>, levels: nat): seq<Tree>
    decreases levels, 1
  {
    seq(|els|, i requires 0 <= i < |els| => Unrolled(g, els[i], levels))
  }

  ghost function UnrolledProperties(g: Graph, entries: seq<Entry>, levels: nat): seq<Field>
    decreases levels, 1
  {
    seq(|entries|, i requires 0 <= i < |entries| =>
      var Entry(key, value) := entries[i];
      Field(key, if value.Arr? && IsUuidIdKey(key) then Shared(value.id) else Unrolled(g, value, levels)))
  }

  lemma UnrolledKind(g: Graph, v: Value, levels: nat)
    ensures var t := Unrolled(g, v, levels); !t.Shared? && (t.TArr? <==> v.Arr?) && (t.TObj? <==> v.Obj?)
  {
  }

  lemma {:induction false} UnrolledAgrees(g: Graph, v: Value, levels: nat)
    ensures Agrees(g, v, Unrolled(g, v, levels), levels)
    decreases levels, 0
  {
    hide IsUuidIdKey, ElementsAgree, PropertiesAgree;
    if levels > 0 && v.Arr? {
      UnrolledElementsAgree(g, g.Elements(v.id), levels - 1);
    }
    if levels > 0 && v.Obj? {
      UnrolledPropertiesAgree(g, g.Entries(v.id), levels - 1);
    }
  }

  lemma {:induction false} UnrolledElementsAgree(g: Graph, els: seq<Value>, levels: nat)
    ensures ElementsAgree(g, els, UnrolledElements(g, els, levels), levels)
    decreases levels, 1
  {
    hide Agrees, Unrolled;
    forall i | 0 <= i < |els| ensures Agrees(g, els[i], Unrolled(g, els[i], levels), levels) && !Unrolled(g, els[i], levels).Shared? {
      UnrolledAgrees(g, els[i], levels);
      UnrolledKind(g, els[i], levels);
    }
  }

  lemma {:induction false} UnrolledPropertiesAgree(g: Graph, entries: seq<Entry>, levels: nat)
    ensures PropertiesAgree(g, entries, UnrolledProperties(g, entries, levels), levels)
    decreases levels, 1
  {
    hide Agrees, Unrolled, IsUuidIdKey;
    var fs := UnrolledProperties(g, entries, levels);
    forall i | 0 <= i < |entries| ensures WrittenUnder(fs[i].key, fs[i].tree) && Agrees(g, entries[i].value, fs[i].tree, levels) {
      UnrolledAgrees(g, entries[i].value, levels);
      UnrolledKind(g, entries[i].value, levels);
      SharedAgrees(g, entries[i].value, levels);
    }
  }

  lemma SharedAgrees(g: Graph, v: Value, levels: nat)
    ensures v.Arr? ==> Agrees(g, v, Shared(v.id), levels)
  {
  }

  lemma {:induction false} FiniteAgrees(g: Graph, v: Value, t: Tree, levels: nat)
    requires Represents(g, v, t) && Written(t)
    ensures Agrees(g, v, t, levels)
    decreases levels
  {
    hide IsUuidIdKey;
    if levels > 0 && t.TArr? {
      forall i | 0 <= i < |t.elements| ensures Agrees(g, g.Elements(v.id)[i], t.elements[i], levels - 1) {
        FiniteAgrees(g, g.Elements(v.id)[i], t.elements[i], levels - 1);
      }
    }
    if levels > 0 && t.TObj? {
      forall i | 0 <= i < |t.fields| ensures Agrees(g, g.Entries(v.id)[i].value, t.fields[i].tree, levels - 1) {
        FiniteAgrees(g, g.Entries(v.id)[i].value, t.fields[i].tree, levels - 1);
      }
    }
  }

  // --- The walk returns what is expected ---

  lemma Limits(n: nat)
    ensures MAX_DEPTH == 10 && MAX_ARRAY_ELEMENTS == 1000 && CUT == "[MAX-DEPTH]" && PiiJson.REDACTED == "[REDACTED]"
    ensures Walked(n) == (if n <= 1000 then n else 1000) && Marker(n) == Dropped(n)
  {
  }

  lemma ElementsNext(ts: seq<Tree>, piiKey: bool, levels: nat, n: nat)
    requires n < |ts|
    ensures Elements(ts[..n + 1], piiKey, levels) == Elements(ts[..n], piiKey, levels) + [Element(ts[n], piiKey, levels)]
  {
    hide *;
    var front := ts[..n + 1];
    assert front[..n] == ts[..n] && front[n] == ts[n];
    ElementsLast(front, piiKey, levels);
  }

  lemma ElementsLast(ts: seq<Tree>, piiKey: bool, levels: nat)
    requires ts != []
    ensures Elements(ts, piiKey, levels) == Elements(ts[..|ts| - 1], piiKey, levels) + [Element(ts[|ts| - 1], piiKey, levels)]
  {
    hide Element;
  }

  lemma {:induction false} WalkElement(g: Graph, v: Value, t: Tree, piiKey: bool, depth: nat)
    requires depth <= 10 && Agrees(g, v, t, 10 - depth) && !t.Shared?
    ensures depth <= MAX_DEPTH && CleanElement(g, v, piiKey, depth) == Element(t, piiKey, 10 - depth)
    decreases t, 0
  {
    hide *;
    Limits(0);
    ElementStep(g, v, piiKey, depth);
    ElementLeaf(g, v, t, piiKey, 10 - depth);
    match t
    case TArr(ts) => ArrayOf(g, v, ts, 10 - depth); WalkArray(g, v.id, ts, piiKey, depth + 1);
    case TObj(fs) => ObjectOf(g, v, fs, 10 - depth); WalkObject(g, v.id, fs, piiKey, depth + 1);
    case _ =>
  }

  lemma ElementLeaf(g: Graph, v: Value, t: Tree, piiKey: bool, levels: nat)
    requires Agrees(g, v, t, levels)
    ensures t.TStr? ==> v.Str? && Element(t, piiKey, levels) == TStr(if piiKey then PiiJson.REDACTED else Redacted(v.text))
    ensures t.TOther? ==> v.Other? && Element(t, piiKey, levels) == TOther(v.code)
  {
    hide Redacted;
  }

  lemma ArrayOf(g: Graph, v: Value, ts: seq<Tree>, levels: nat)
    requires Agrees(g, v, TArr(ts), levels)
    ensures v.Arr? && (levels > 0 ==> ElementsAgree(g, g.Elements(v.id), ts, levels - 1))
  {
    hide ElementsAgree;
  }

  lemma ObjectOf(g: Graph, v: Value, fs: seq<Field>, levels: nat)
    requires Agrees(g, v, TObj(fs), levels)
    ensures v.Obj? && (levels > 0 ==> PropertiesAgree(g, g.Entries(v.id), fs, levels - 1))
  {
    hide PropertiesAgree;
  }

  lemma {:induction false} WalkArray(g: Graph, id: nat, ts: seq<Tree>, piiKey: bool, depth: nat)
    requires depth <= 11 && (depth <= 10 ==> ElementsAgree(g, g.Elements(id), ts, 10 - depth))
    ensures CleanArray(g, id, piiKey, depth) == Element(TArr(ts), piiKey, 11 - depth)
    decreases ts, |ts| + 1
  {
    hide *;
    Limits(|ts|);
    ArrayStep(g, id, piiKey, depth);
    ElementArray(ts, piiKey, 11 - depth);
    if depth <= 10 {
      SameLength(g, g.Elements(id), ts, 10 - depth);
      WalkElements(g, g.Elements(id), ts, piiKey, depth, if |ts| <= 1000 then |ts| else 1000);
    }
  }

  lemma SameLength(g: Graph, els: seq<Value>, ts: seq<Tree>, levels: nat)
    requires ElementsAgree(g, els, ts, levels)
    ensures |els| == |ts| && ts[..|ts|] == ts
  {
  }

  lemma ElementArray(ts: seq<Tree>, piiKey: bool, levels: nat)
    ensures levels == 0 ==> Element(TArr(ts), piiKey, levels) == TArr([TStr(CUT)])
    ensures levels > 0 ==>
              Element(TArr(ts), piiKey, levels) == TArr(Elements(if |ts| <= 1000 then ts else ts[..1000], piiKey, levels - 1) + Dropped(|ts|))
  {
    hide Elements, Dropped;
  }

  lemma {:induction false} WalkElements(g: Graph, els: seq<Value>, ts: seq<Tree>, piiKey: bool, depth: nat, n: nat)
    requires depth <= 10 && n <= |ts| && ElementsAgree(g, els, ts, 10 - depth)
    ensures |els| == |ts| && depth <= MAX_DEPTH
    ensures CleanElements(g, els, piiKey, depth, n) == Elements(ts[..n], piiKey, 10 - depth)
    decreases ts, n
  {
    hide *;
    Limits(0);
    SameLength(g, els, ts, 10 - depth);
    if n == 0 {
      NoElementsYet(g, els, ts, piiKey, depth);
    } else {
      WalkElements(g, els, ts, piiKey, depth, n - 1);
      ElementAt(g, els, ts, 10 - depth, n - 1);
      WalkElement(g, els[n - 1], ts[n - 1], piiKey, depth);
      Sanitizer.ElementsNext(g, els, piiKey, depth, n - 1);
      ElementsNext(ts, piiKey, 10 - depth, n - 1);
    }
  }

  lemma ElementAt(g: Graph, els: seq<Value>, ts: seq<Tree>, levels: nat, i: nat)
    requires ElementsAgree(g, els, ts, levels) && i < |ts|
    ensures i < |els| && Agrees(g, els[i], ts[i], levels) && !ts[i].Shared?
  {
  }

  lemma NoElementsYet(g: Graph, els: seq<Value>, ts: seq<Tree>, piiKey: bool, depth: nat)
    requires depth <= MAX_DEPTH && depth <= 10
    ensures CleanElements(g, els, piiKey, depth, 0) == Elements(ts[..0], piiKey, 10 - depth)
  {
    hide CleanElement;
  }

  lemma {:induction false} WalkObject(g: Graph, id: nat, fs: seq<Field>, piiKey: bool, depth: nat)
    requires depth <= 11 && (depth <= 10 ==> PropertiesAgree(g, g.Entries(id), fs, 10 - depth))
    ensures CleanObject(g, id, depth) == Element(TObj(fs), piiKey, 11 - depth)
    decreases fs, |fs| + 1
  {
    hide *;
    Limits(0);
    ObjectStep(g, id, depth);
    ElementObject(fs, piiKey, 11 - depth);
    if depth <= 10 {
      WalkProperties(g, g.Entries(id), fs, depth);
    }
  }

  lemma ElementObject(fs: seq<Field>, piiKey: bool, levels: nat)
    ensures levels == 0 ==> Element(TObj(fs), piiKey, levels) == TObj([Field("__truncated", TStr(CUT))])
    ensures levels > 0 ==> Element(TObj(fs), piiKey, levels) == TObj(Properties(fs, levels - 1))
  {
    hide Properties;
  }

  lemma {:induction false} WalkProperties(g: Graph, entries: seq<Entry>, fs: seq<Field>, depth: nat)
    requires depth <= 10 && PropertiesAgree(g, entries, fs, 10 - depth)
    ensures depth <= MAX_DEPTH && CleanFields(g, entries, depth) == Properties(fs, 10 - depth)
    decreases fs, |fs|
  {
    hide *;
    Limits(0);
    if fs == [] {
      NoProperties(g, entries, depth);
    } else {
      var n := |fs| - 1;
      FrontAgrees(g, entries, fs, 10 - depth);
      WalkProperties(g, entries[..n], fs[..n], depth);
      WalkProperty(g, entries[n].key, entries[n].value, fs[n].tree, depth);
      assert entries == entries[..n] + [entries[n]];
      FieldsNext(g, entries[..n], entries[n], depth);
      PropertiesNext(fs, 10 - depth);
    }
  }

  lemma FrontAgrees(g: Graph, entries: seq<Entry>, fs: seq<Field>, levels: nat)
    requires PropertiesAgree(g, entries, fs, levels) && fs != []
    ensures var n := |fs| - 1;
            && |entries| == |fs| && PropertiesAgree(g, entries[..n], fs[..n], levels)
            && entries[n].key == fs[n].key && Agrees(g, entries[n].value, fs[n].tree, levels) && WrittenUnder(fs[n].key, fs[n].tree)
  {
    hide Agrees, WrittenUnder;
  }

  lemma NoProperties(g: Graph, entries: seq<Entry>, depth: nat)
    requires depth <= MAX_DEPTH && depth <= 10 && PropertiesAgree(g, entries, [], 10 - depth)
    ensures CleanFields(g, entries, depth) == Properties([], 10 - depth)
  {
    assert entries == [];
  }

  lemma PropertiesNext(fs: seq<Field>, levels: nat)
    requires fs != []
    ensures var f := fs[|fs| - 1];
            Properties(fs, levels) ==
            Properties(fs[..|fs| - 1], levels) + (if f.key == "__proto__" then [] else [Field(f.key, Property(f.key, f.tree, levels))])
  {
    hide Property;
  }

  lemma {:induction false} WalkProperty(g: Graph, key: string, v: Value, t: Tree, depth: nat)
    requires depth <= 10 && Agrees(g, v, t, 10 - depth) && WrittenUnder(key, t)
    ensures depth <= MAX_DEPTH && CleanValue(g, key, v, depth) == Property(key, t, 10 - depth)
    decreases t, 1
  {
    hide *;
    Limits(0);
    ValueStep(g, key, v, depth);
    PropertyStep(g, key, v, t, 10 - depth);
    match t
    case TArr(ts) => ArrayOf(g, v, ts, 10 - depth); WalkArray(g, v.id, ts, KeyMatchesPII(key), depth + 1);
    case TObj(fs) => ObjectOf(g, v, fs, 10 - depth); WalkObject(g, v.id, fs, false, depth + 1);
    case TStr(s) => ElementLeaf(g, v, t, false, 10 - depth);
    case _ =>
  }

  lemma PropertyStep(g: Graph, key: string, v: Value, t: Tree, levels: nat)
    requires Agrees(g, v, t, levels) && WrittenUnder(key, t)
    ensures match t
            case TArr(_) => v.Arr? && !IsUuidIdKey(key) && Property(key, t, levels) == Element(t, KeyMatchesPII(key), levels)
            case Shared(id) => v == Arr(id) && IsUuidIdKey(key) && Property(key, t, levels) == t
            case TObj(_) => v.Obj? && Property(key, t, levels) == if KeyMatchesPII(key) then TStr(PiiJson.REDACTED) else Element(t, false, levels)
            case TStr(s) => v.Str? && Property(key, t, levels) == if KeyMatchesPII(key) then TStr(PiiJson.REDACTED) else Element(t, false, levels)
            case TOther(c) => v == Other(c) && Property(key, t, levels) == if KeyMatchesPII(key) then TStr(PiiJson.REDACTED) else t
  {
    hide KeyMatchesPII, IsUuidIdKey, Redacted, Elements, Properties;
  }

  /** `sanitizeObject` on any value: eleven levels of objects and arrays are entered, a level below them is
      cut, arrays keep a thousand elements, strings are redacted, and PII keys hold the redaction. */
  lemma SanitizedExactly(g: Graph, id: nat)
    ensures CleanObject(g, id, 0) == Element(Unrolled(g, Obj(id), 11), false, 11)
  {
    hide *;
    UnrolledAgrees(g, Obj(id), 11);
    UnrolledKind(g, Obj(id), 11);
    SanitizedAs(g, id, Unrolled(g, Obj(id), 11).fields);
  }

  /** What agrees with the value on eleven levels below it is sanitised alike. */
  lemma SanitizedAs(g: Graph, id: nat, fs: seq<Field>)
    requires Agrees(g, Obj(id), TObj(fs), 11)
    ensures CleanObject(g, id, 0) == Element(TObj(fs), false, 11)
  {
    hide *;
    ObjectOf(g, Obj(id), fs, 11);
    WalkObject(g, id, fs, false, 0);
  }

  lemma SanitizedFinite(g: Graph, id: nat, fs: seq<Field>)
    requires Represents(g, Obj(id), TObj(fs)) && Written(TObj(fs))
    ensures CleanObject(g, id, 0) == Element(TObj(fs), false, 11)
  {
    hide *;
    FiniteAgrees(g, Obj(id), TObj(fs), 11);
    SanitizedAs(g, id, fs);
  }

  // --- What comes back as it was ---

  /** Levels of objects and arrays. */
  function Nesting(t: Tree): nat
    decreases t
  {
    match t
    case TArr(ts) => 1 + DeepestElement(ts)
    case TObj(fs) => 1 + DeepestProperty(fs)
    case _ => 0
  }

  function Max(a: nat, b: nat): nat {
    if a < b then b else a
  }

  function DeepestElement(ts: seq<Tree>): nat
    decreases ts
  {
    if ts == [] then 0 else Max(DeepestElement(ts[..|ts| - 1]), Nesting(ts[|ts| - 1]))
  }

  function DeepestProperty(fs: seq<Field>): nat
    decreases fs
  {
    if fs == [] then 0 else Max(DeepestProperty(fs[..|fs| - 1]), Nesting(fs[|fs| - 1].tree))
  }

  /** Texts without anything sensitive, keys that call for nothing, arrays of at most a thousand elements. */
  ghost predicate Innocent(t: Tree)
    decreases t
  {
    match t
    case TStr(s) => NothingSensitive(s)
    case TArr(ts) => |ts| <= 1000 && forall i | 0 <= i < |ts| :: Innocent(ts[i])
    case TObj(fs) => forall i | 0 <= i < |fs| :: fs[i].key != "__proto__" && !KeyMatchesPII(fs[i].key) && Innocent(fs[i].tree)
    case _ => true
  }

  ghost predicate InnocentElements(ts: seq<Tree>) {
    forall i | 0 <= i < |ts| :: Innocent(ts[i])
  }

  ghost predicate InnocentProperties(fs: seq<Field>) {
    forall i | 0 <= i < |fs| :: fs[i].key != "__proto__" && !KeyMatchesPII(fs[i].key) && Innocent(fs[i].tree)
  }

  lemma {:induction false} ElementKept(t: Tree, levels: nat)
    requires Innocent(t) && Nesting(t) <= levels
    ensures Element(t, false, levels) == t
    decreases t, 0
  {
    hide *;
    match t
    case TStr(s) => TextIn(s, levels);
    case TArr(ts) => ArrayIn(ts, levels); ElementsKept(ts, levels - 1); ElementArray(ts, false, levels); assert ts + [] == ts;
    case TObj(fs) => ObjectIn(fs, levels); PropertiesKept(fs, levels - 1); ElementObject(fs, false, levels);
    case _ => OtherIn(t, levels);
  }

  lemma TextIn(s: string, levels: nat)
    requires Innocent(TStr(s))
    ensures Element(TStr(s), false, levels) == TStr(s)
  {
    TextKept(s);
    hide Redacted;
  }

  lemma OtherIn(t: Tree, levels: nat)
    requires t.TOther? || t.Shared?
    ensures Element(t, false, levels) == t
  {
  }

  lemma ArrayIn(ts: seq<Tree>, levels: nat)
    requires Innocent(TArr(ts)) && Nesting(TArr(ts)) <= levels
    ensures |ts| <= 1000 && InnocentElements(ts) && levels > 0 && DeepestElement(ts) <= levels - 1 && Dropped(|ts|) == []
  {
    hide DeepestElement;
  }

  lemma ObjectIn(fs: seq<Field>, levels: nat)
    requires Innocent(TObj(fs)) && Nesting(TObj(fs)) <= levels
    ensures InnocentProperties(fs) && levels > 0 && DeepestProperty(fs) <= levels - 1
  {
    hide DeepestProperty, KeyMatchesPII;
  }

  lemma TextKept(s: string)
    requires NothingSensitive(s)
    ensures Redacted(s) == s
  {
    hide *;
    CleanExactly(s);
    UnchangedIffClean(s);
  }

  lemma {:induction false} ElementsKept(ts: seq<Tree>, levels: nat)
    requires InnocentElements(ts) && DeepestElement(ts) <= levels
    ensures Elements(ts, false, levels) == ts
    decreases ts
  {
    hide *;
    LastElement(ts, levels);
    if ts != [] {
      ElementsKept(ts[..|ts| - 1], levels);
      ElementKept(ts[|ts| - 1], levels);
      assert ts == ts[..|ts| - 1] + [ts[|ts| - 1]];
    }
  }

  lemma LastElement(ts: seq<Tree>, levels: nat)
    requires InnocentElements(ts) && DeepestElement(ts) <= levels
    ensures ts == [] ==> Elements(ts, false, levels) == []
    ensures ts != [] ==>
              && InnocentElements(ts[..|ts| - 1]) && DeepestElement(ts[..|ts| - 1]) <= levels
              && Innocent(ts[|ts| - 1]) && Nesting(ts[|ts| - 1]) <= levels
              && Elements(ts, false, levels) == Elements(ts[..|ts| - 1], false, levels) + [Element(ts[|ts| - 1], false, levels)]
  {
    hide Innocent, Nesting, Element;
  }

  lemma {:induction false} PropertiesKept(fs: seq<Field>, levels: nat)
    requires InnocentProperties(fs) && DeepestProperty(fs) <= levels
    ensures Properties(fs, levels) == fs
    decreases fs
  {
    hide *;
    LastProperty(fs, levels);
    if fs != [] {
      PropertiesKept(fs[..|fs| - 1], levels);
      ElementKept(fs[|fs| - 1].tree, levels);
      assert fs == fs[..|fs| - 1] + [fs[|fs| - 1]];
    }
  }

  lemma LastProperty(fs: seq<Field>, levels: nat)
    requires InnocentProperties(fs) && DeepestProperty(fs) <= levels
    ensures fs == [] ==> Properties(fs, levels) == []
    ensures fs != [] ==>
              var f := fs[|fs| - 1];
              && InnocentProperties(fs[..|fs| - 1]) && DeepestProperty(fs[..|fs| - 1]) <= levels
              && Innocent(f.tree) && Nesting(f.tree) <= levels
              && Properties(fs, levels) == Properties(fs[..|fs| - 1], levels) + [Field(f.key, Element(f.tree, false, levels))]
  {
    hide Innocent, Nesting, Element, Property, KeyMatchesPII;
    if fs != [] {
      PlainProperty(fs[|fs| - 1].key, fs[|fs| - 1].tree, levels);
    }
  }

  lemma PlainProperty(key: string, t: Tree, levels: nat)
    requires !KeyMatchesPII(key)
    ensures Property(key, t, levels) == Element(t, false, levels)
  {
    hide KeyMatchesPII, Redacted, Elements, Properties;
  }

  /** A finite value of at most eleven levels, the object itself included, without anything sensitive, PII
      keys or long arrays comes back as its copy. */
  lemma ShallowIsKept(g: Graph, id: nat, fs: seq<Field>)
    requires Represents(g, Obj(id), TObj(fs)) && Written(TObj(fs))
    requires Innocent(TObj(fs)) && Nesting(TObj(fs)) <= 11
    ensures CleanObject(g, id, 0) == TObj(fs)
  {
    hide *;
    SanitizedFinite(g, id, fs);
    ElementKept(TObj(fs), 11);
  }

  // --- The operation ---

  /** `sanitizeObject`, on cyclic values as well: the result is that of the unrolling, and for a finite value
      that of the value itself. */
  method SanitizeObject(g: Graph, id: nat) returns (t: Tree)
    ensures t == CleanObject(g, id, 0) == Element(Unrolled(g, Obj(id), 11), false, 11)
    ensures forall fs | Represents(g, Obj(id), TObj(fs)) && Written(TObj(fs)) :: t == Element(TObj(fs), false, 11)
  {
    t := SanitizeObjectInner(g, id, 0);
    hide *;
    SanitizedExactly(g, id);
    forall fs | Represents(g, Obj(id), TObj(fs)) && Written(TObj(fs)) ensures t == Element(TObj(fs), false, 11) {
      SanitizedFinite(g, id, fs);
    }
  }
}
