/** src/utils/logger.ts: `piiFilterFormat`, which the console path applies a second time, after the
    timestamp has been added. */
module Logger {
  import opened Replacement
  import opened PiiPatterns
  import opened PiiKeys
  import opened PiiJson
  import opened Sanitizer
  import opened Timestamps
  import Lists

  /** The entries of the log record with a string `message` passed through `filterPII`. */
  function FilterMessage(entries: seq<Entry>): (out: seq<Entry>)
    ensures |out| == |entries|
  {
    seq(|entries|, i requires 0 <= i < |entries| =>
      if entries[i].key == "message" && entries[i].value.Str? then Entry("message", Str(Filtered(entries[i].value.text)))
      else entries[i])
  }

  /** The string-keyed properties of the record after `piiFilterFormat`. */
  function Format(g: Graph, entries: seq<Entry>): seq<Field> {
    CleanFields(g, FilterMessage(entries), 0)
  }

  lemma {:induction false} CleanFieldsAre(g: Graph, entries: seq<Entry>)
    requires forall i | 0 <= i < |entries| :: entries[i].key != "__proto__"
    ensures |CleanFields(g, entries, 0)| == |entries|
    ensures forall i | 0 <= i < |entries| ::
              CleanFields(g, entries, 0)[i] == Field(entries[i].key, CleanValue(g, entries[i].key, entries[i].value, 0))
  {
    hide *;
    RootEntered();
    if entries == [] {
      FieldsNext(g, [], Entry("", Str("")), 0);
    } else {
      var front, e := entries[..|entries| - 1], entries[|entries| - 1];
      assert forall i | 0 <= i < |front| :: front[i] == entries[i];
      CleanFieldsAre(g, front);
      FieldsNext(g, front, e, 0);
      assert entries == front + [e];
    }
  }

  lemma FormatIs(g: Graph, entries: seq<Entry>)
    ensures Format(g, entries) == CleanFields(g, FilterMessage(entries), 0)
  {
  }

  /** The formatted record: a text message is the one `filterPII` makes of it, and every other property is
      sanitised under its key. */
  lemma Formatted(g: Graph, entries: seq<Entry>, i: nat)
    requires i < |entries| && forall k | 0 <= k < |entries| :: entries[k].key != "__proto__"
    ensures |Format(g, entries)| == |entries| && Format(g, entries)[i].key == entries[i].key
    ensures Format(g, entries)[i].tree ==
            if entries[i].key == "message" && entries[i].value.Str? then TStr(Filtered(entries[i].value.text))
            else CleanValue(g, entries[i].key, entries[i].value, 0)
  {
    var filtered := FilterMessage(entries);
    hide *;
    RootEntered();
    FormatIs(g, entries);
    forall k | 0 <= k < |entries| ensures filtered[k].key == entries[k].key {
      FilterMessageAt(entries, k);
    }
    CleanFieldsAre(g, filtered);
    FilterMessageAt(entries, i);
    if entries[i].key == "message" && entries[i].value.Str? {
      var text := entries[i].value.text;
      ValueStep(g, "message", Str(Filtered(text)), 0);
      OwnKeys();
      RedactedAfterFiltered(text);
    }
  }

  /** A text that the message filter leaves alone. */
  ghost predicate Final(s: string) {
    Filtered(s) == s
  }

  lemma FinalTexts()
    ensures forall s :: Final(Redacted(Filtered(s)))
    ensures Final(REDACTED)
  {
    hide *;
    forall s ensures Final(Redacted(Filtered(s))) {
      RedactedAfterFiltered(s);
      FilteredIsFinal(s);
    }
    RedactedIsFinal();
  }

  lemma FilteredIsFinal(s: string)
    ensures Final(Filtered(s))
  {
    FilteredTwice(s);
  }

  lemma RedactedIsFinal()
    ensures Final(REDACTED)
  {
    hide *;
    NoQuote();
    FilteredIs(REDACTED);
    ConstantsClean();
    UnchangedIffClean(REDACTED);
    RewrittenAtEnd(REDACTED);
    SkipText(REDACTED, 0, REDACTED);
  }

  lemma NoQuote()
    ensures '"' !in REDACTED && REDACTED[0..|REDACTED|] == REDACTED
  {
  }

  lemma FilteredIs(s: string)
    ensures Filtered(s) == Rewritten(Redacted(s), 0)
    ensures Filtered(s) == s ==> Final(s)
  {
    hide Redacted, ReplaceFrom;
  }

  /** In the formatted record every `message` text is final. */
  lemma {:induction false} MessagesFinal(g: Graph, entries: seq<Entry>)
    ensures forall i | 0 <= i < |CleanFields(g, FilterMessage(entries), 0)| ::
              var f := CleanFields(g, FilterMessage(entries), 0)[i];
              f.key == "message" && f.tree.TStr? ==> Final(f.tree.text)
    decreases |entries|
  {
    hide Filtered, Redacted, KeyMatchesPII, IsUuidIdKey, Final, CleanArray, CleanObject;
    if entries != [] {
      var n := |entries| - 1;
      FinalTexts();
      MessagesFinal(g, entries[..n]);
      assert FilterMessage(entries)[..n] == FilterMessage(entries[..n]);
    }
  }

  /** A copy of the formatted record has final messages, so the message filter is the identity. */
  lemma FilterMessageAgain(g: Graph, entries: seq<Entry>, h: Graph, copies: seq<Entry>)
    requires RepresentsFields(h, copies, Format(g, entries))
    ensures FilterMessage(copies) == copies
  {
    hide Filtered, CleanFields, FilterMessage;
    MessagesFinal(g, entries);
    var fs := Format(g, entries);
    forall i | 0 <= i < |copies| ensures FilterMessage(copies)[i] == copies[i] {
      assert Represents(h, copies[i].value, fs[i].tree) && copies[i].key == fs[i].key;
      FilterMessageAt(copies, i);
    }
  }

  lemma FilterMessageAt(entries: seq<Entry>, i: nat)
    requires i < |entries|
    ensures FilterMessage(entries)[i]
         == if entries[i].key == "message" && entries[i].value.Str? then Entry("message", Str(Filtered(entries[i].value.text)))
            else entries[i]
  {
  }

  // --- The timestamp between the two applications ---

  const STAMP := "timestamp"

  predicate HasStamp(entries: seq<Entry>) {
    exists e :: e in entries && e.key == STAMP
  }

  predicate FieldsHaveStamp(fs: seq<Field>) {
    exists f :: f in fs && f.key == STAMP
  }

  /** `info.timestamp = ts`: in place if there is such a property, and at the end otherwise. */
  function Stamp(entries: seq<Entry>, ts: string): seq<Entry> {
    Lists.Map(StampEntry(ts), entries)
    + (if HasStamp(entries) then [] else [Entry(STAMP, Str(ts))])
  }

  function StampEntry(ts: string): Entry -> Entry {
    (e: Entry) => if e.key == STAMP then Entry(STAMP, Str(ts)) else e
  }

  /** The same assignment on a formatted record. */
  function StampFields(fs: seq<Field>, ts: string): seq<Field> {
    Lists.Map(StampField(ts), fs) + (if FieldsHaveStamp(fs) then [] else [Field(STAMP, TStr(ts))])
  }

  function StampField(ts: string): Field -> Field {
    (f: Field) => if f.key == STAMP then Field(STAMP, TStr(ts)) else f
  }

  predicate IsUnstamped(e: Entry) {
    e.key != STAMP
  }

  /** The entries that the timestamp does not replace. */
  function Unstamped(entries: seq<Entry>): seq<Entry> {
    Lists.Filter(entries, IsUnstamped)
  }

  lemma StampValue(h: Graph, ts: string)
    requires IsTimestamp(ts)
    ensures CleanValue(h, STAMP, Str(ts), 0) == TStr(ts)
  {
    TimestampKept(ts);
    OwnKeys();
    hide Redacted, KeyMatchesPII;
    ValueStep(h, STAMP, Str(ts), 0);
  }

  lemma UnstampedNext(g: Graph, front: seq<Entry>, e: Entry)
    ensures ShortFields(g, Unstamped(front + [e]), 0)
            <==> ShortFields(g, Unstamped(front), 0) && (e.key != "__proto__" && e.key != STAMP ==> ShortValue(g, e.key, e.value, 0))
  {
    hide ShortValue, ShortFields;
    Lists.FilterPush(front, e, IsUnstamped);
    var kept := Unstamped(front);
    assert Unstamped(front + [e]) == if e.key != STAMP then kept + [e] else kept;
    ShortFieldsSnoc(g, kept + [e], 0);
    assert (kept + [e])[..|kept|] == kept;
  }

  /** One more property of the record, stamped and formatted again. */
  lemma StampedAgain(g: Graph, e: Entry, h: Graph, w: Value, ts: string)
    requires IsTimestamp(ts) && Represents(h, w, CleanValue(g, e.key, e.value, 0))
    ensures var again, first := StampEntry(ts)(Entry(e.key, w)), StampField(ts)(Field(e.key, CleanValue(g, e.key, e.value, 0)));
            && again.key == first.key == e.key
            && (CleanValue(h, e.key, again.value, 0) == first.tree <==> (e.key != STAMP ==> ShortValue(g, e.key, e.value, 0)))
  {
    hide CleanValue, ShortValue, Represents, IsTimestamp;
    if e.key == STAMP {
      StampValue(h, ts);
    } else {
      ValueTwice(g, e.key, e.value, 0, h, w);
    }
  }

  lemma StampedLast(g: Graph, front: seq<Entry>, e: Entry, h: Graph, copies: seq<Entry>, ts: string)
    requires IsTimestamp(ts) && e.key != "__proto__"
    requires RepresentsFields(h, copies, CleanFields(g, front + [e], 0))
    ensures |copies| == |CleanFields(g, front, 0)| + 1
    ensures RepresentsFields(h, copies[..|copies| - 1], CleanFields(g, front, 0))
    ensures SameWhenStamped(g, front + [e], h, copies, ts)
            <==> SameWhenStamped(g, front, h, copies[..|copies| - 1], ts) && (e.key != STAMP ==> ShortValue(g, e.key, e.value, 0))
  {
    hide CleanFields, CleanValue, ShortValue, RepresentsFields, Represents, IsTimestamp;
    var fs, f := CleanFields(g, front, 0), Field(e.key, CleanValue(g, e.key, e.value, 0));
    FieldsNext(g, front, e, 0);
    RepresentsSnoc(h, copies, fs, f);
    var rest, w := copies[..|fs|], copies[|fs|];
    assert copies == rest + [w] && w == Entry(e.key, w.value);
    StampedAgain(g, e, h, w.value, ts);
    Lists.MapPush(StampEntry(ts), rest, w);
    Lists.MapPush(StampField(ts), fs, f);
    var again := StampEntry(ts)(w);
    FieldsNext(h, Lists.Map(StampEntry(ts), rest), again, 0);
    SnocEqual(CleanFields(h, Lists.Map(StampEntry(ts), rest), 0), Field(again.key, CleanValue(h, again.key, again.value, 0)),
              Lists.Map(StampField(ts), fs), StampField(ts)(f));
  }

  ghost predicate SameWhenStamped(g: Graph, entries: seq<Entry>, h: Graph, copies: seq<Entry>, ts: string) {
    CleanFields(h, Lists.Map(StampEntry(ts), copies), 0) == Lists.Map(StampField(ts), CleanFields(g, entries, 0))
  }

  lemma {:induction false} StampedFieldsTwice(g: Graph, entries: seq<Entry>, h: Graph, copies: seq<Entry>, ts: string)
    requires IsTimestamp(ts) && RepresentsFields(h, copies, CleanFields(g, entries, 0))
    ensures SameWhenStamped(g, entries, h, copies, ts) <==> ShortFields(g, Unstamped(entries), 0)
    decreases |entries|
  {
    hide *;
    if entries == [] {
      NothingStamped(g, h, copies, ts);
    } else {
      var n := |entries| - 1;
      var front, e := entries[..n], entries[n];
      assert entries == front + [e];
      UnstampedNext(g, front, e);
      if e.key == "__proto__" {
        ProtoDropped(g, front, e, h, copies, ts);
        StampedFieldsTwice(g, front, h, copies, ts);
      } else {
        StampedLast(g, front, e, h, copies, ts);
        StampedFieldsTwice(g, front, h, copies[..|copies| - 1], ts);
      }
    }
  }

  lemma ProtoDropped(g: Graph, front: seq<Entry>, e: Entry, h: Graph, copies: seq<Entry>, ts: string)
    requires e.key == "__proto__"
    ensures e.key != STAMP && CleanFields(g, front + [e], 0) == CleanFields(g, front, 0)
    ensures SameWhenStamped(g, front + [e], h, copies, ts) <==> SameWhenStamped(g, front, h, copies, ts)
  {
    hide CleanFields;
    FieldsNext(g, front, e, 0);
    ProtoIsUnstamped();
  }

  lemma NothingStamped(g: Graph, h: Graph, copies: seq<Entry>, ts: string)
    requires RepresentsFields(h, copies, CleanFields(g, [], 0))
    ensures SameWhenStamped(g, [], h, copies, ts) && ShortFields(g, Unstamped([]), 0)
  {
    assert copies == [];
  }

  lemma ProtoIsUnstamped()
    ensures "__proto__" != STAMP
  {
    assert |"__proto__"| == |STAMP| == 9 && "__proto__"[0] != STAMP[0];
  }

  /** Neither the message filter nor the copy is disturbed by the timestamp. */
  lemma StampKeepsMessages(copies: seq<Entry>, ts: string)
    requires FilterMessage(copies) == copies
    ensures FilterMessage(Stamp(copies, ts)) == Stamp(copies, ts)
  {
    hide Filtered;
    assert |STAMP| != |"message"|;
    var stamped := Stamp(copies, ts);
    forall i | 0 <= i < |stamped| ensures FilterMessage(stamped)[i] == stamped[i] {
      FilterMessageAt(stamped, i);
      if i < |copies| {
        FilterMessageAt(copies, i);
      }
    }
  }

  /** The record that `piiFilterFormat` has formatted and winston has stamped is left alone by a second
      `piiFilterFormat`, timestamp included, if and only if no visited array outside the replaced
      property has more than 1001 elements. */
  lemma FormatTwice(g: Graph, entries: seq<Entry>, h: Graph, copies: seq<Entry>, ts: string)
    requires RepresentsFields(h, copies, Format(g, entries)) && IsTimestamp(ts)
    ensures Format(h, Stamp(copies, ts)) == StampFields(Format(g, entries), ts)
            <==> ShortFields(g, Unstamped(FilterMessage(entries)), 0)
  {
    var fs := Format(g, entries);
    StampIs(g, FilterMessage(entries), h, copies, fs, ts);
    hide *;
    FilterMessageAgain(g, entries, h, copies);
    StampKeepsMessages(copies, ts);
    StampedFieldsTwice(g, FilterMessage(entries), h, copies, ts);
    SameKeys(h, copies, fs);
    StampAppended(h, Lists.Map(StampEntry(ts), copies), Lists.Map(StampField(ts), fs), ts);
  }

  lemma StampIs(g: Graph, entries: seq<Entry>, h: Graph, copies: seq<Entry>, fs: seq<Field>, ts: string)
    ensures Stamp(copies, ts) == Lists.Map(StampEntry(ts), copies) + (if HasStamp(copies) then [] else [Entry(STAMP, Str(ts))])
    ensures StampFields(fs, ts) == Lists.Map(StampField(ts), fs) + (if FieldsHaveStamp(fs) then [] else [Field(STAMP, TStr(ts))])
    ensures forall k, es :: Format(k, es) == CleanFields(k, FilterMessage(es), 0)
    ensures SameWhenStamped(g, entries, h, copies, ts)
            <==> CleanFields(h, Lists.Map(StampEntry(ts), copies), 0) == Lists.Map(StampField(ts), CleanFields(g, entries, 0))
  {
    hide FilterMessage, CleanFields;
  }

  /** An appended timestamp is formatted to itself. */
  lemma StampAppended(h: Graph, stamped: seq<Entry>, fs: seq<Field>, ts: string)
    requires IsTimestamp(ts)
    ensures CleanFields(h, stamped + [Entry(STAMP, Str(ts))], 0) == fs + [Field(STAMP, TStr(ts))] <==> CleanFields(h, stamped, 0) == fs
    ensures CleanFields(h, stamped + [], 0) == fs + [] <==> CleanFields(h, stamped, 0) == fs
  {
    hide CleanFields, CleanValue, IsTimestamp;
    StampValue(h, ts);
    ProtoIsUnstamped();
    FieldsNext(h, stamped, Entry(STAMP, Str(ts)), 0);
    SnocEqual(CleanFields(h, stamped, 0), Field(STAMP, TStr(ts)), fs, Field(STAMP, TStr(ts)));
    assert stamped + [] == stamped && fs + [] == fs;
  }

  lemma SameKeys(h: Graph, copies: seq<Entry>, fs: seq<Field>)
    requires RepresentsFields(h, copies, fs)
    ensures HasStamp(copies) <==> FieldsHaveStamp(fs)
  {
    hide Represents;
    forall i | 0 <= i < |fs| ensures copies[i].key == fs[i].key && copies[i] in copies && fs[i] in fs {
    }
  }
}
