/** Generating and parsing JSON undo each other, on exactly the values that can round-trip. */
module JsonRoundTrip {
  import opened Text
  import opened JsonText
  import opened JsonLanguage
  import JsonClosing

  // ---------- Values that survive ----------

  /** What any parsed value looks like: numbers are non-negative 32-bit integers, strings and keys
      hold no quote, and a map's keys ascend. */
  predicate Readable(v: Value)
    decreases v, 1
  {
    match v
    case Null => true
    case Bool(_) => true
    case Int(i) => 0 <= i <= INT_MAX
    case Float(_) => true
    case Str(s) => QuoteFree(s)
    case Array(items) => ReadableItems(items)
    case Object(entries) => Ascending(entries) && ReadableEntries(entries)
  }

  predicate ReadableItems(items: seq<Value>)
    decreases items, 0
  {
    items == [] || (Readable(items[0]) && ReadableItems(items[1..]))
  }

  predicate ReadableEntries(entries: seq<Entry>)
    decreases entries, 0
  {
    entries == [] || (QuoteFree(entries[0].key) && Readable(entries[0].value) && ReadableEntries(entries[1..]))
  }

  predicate FloatFree(v: Value)
    decreases v, 1
  {
    match v
    case Float(_) => false
    case Array(items) => FloatFreeItems(items)
    case Object(entries) => FloatFreeEntries(entries)
    case _ => true
  }

  predicate FloatFreeItems(items: seq<Value>)
    decreases items, 0
  {
    items == [] || (FloatFree(items[0]) && FloatFreeItems(items[1..]))
  }

  predicate FloatFreeEntries(entries: seq<Entry>)
    decreases entries, 0
  {
    entries == [] || (FloatFree(entries[0].value) && FloatFreeEntries(entries[1..]))
  }

  /** No white space, and a separator where one belongs. */
  function Comma(more: bool): string { if more then "," else "" }

  /** The document without white space. */
  function DocOf(v: Value): Doc
    requires FloatFree(v)
    decreases v, 1
  {
    match v
    case Null => DNull
    case Bool(b) => DBool(b)
    case Int(i) => DNumber(IntText(i))
    case Str(s) => DStr(s)
    case Array(items) => DArray("", ItemsOf(items))
    case Object(entries) => DObject("", MembersOf(entries))
  }

  function ItemsOf(items: seq<Value>): seq<Item>
    requires FloatFreeItems(items)
    decreases items, 0
  {
    if items == [] then [] else [Item(DocOf(items[0]), Comma(|items| > 1))] + ItemsOf(items[1..])
  }

  function MembersOf(entries: seq<Entry>): seq<Member>
    requires FloatFreeEntries(entries)
    decreases entries, 0
  {
    if entries == [] then []
    else
      [Member(entries[0].key, ":", DocOf(entries[0].value), Comma(|entries| > 1))]
      + MembersOf(entries[1..])
  }

  lemma {:induction false} DocStandsFor(v: Value, f: FloatText)
    requires FloatFree(v) && Readable(v)
    ensures Clean(DocOf(v), f) && Print(DocOf(v)) == Generate(v, f) && ValueOf(DocOf(v), f) == v
    decreases v, 1
  {
    hide PrintItems, PrintMembers, GenerateItems, GenerateEntries, CleanItems, CleanMembers, ValuesOf, EntriesOf;
    hide NumberValue, ReadableItems, ReadableEntries, FloatFreeItems, FloatFreeEntries, Ascending;
    match v
    case Null =>
    case Bool(_) =>
    case Int(i) => IntStandsFor(i, f);
    case Str(_) =>
    case Array(items) =>
      ItemsStandFor(items, f);
      ContainerText("[", GenerateItems(items, f), "]");
    case Object(entries) =>
      assert [] + entries == entries;
      MembersStandFor(entries, [], f);
      ContainerText("{", GenerateEntries(entries, f), "}");
  }

  lemma ContainerText(open: string, text: string, close: string)
    ensures open + ("" + (text + close)) == open + text + close
  {
  }

  lemma IntStandsFor(i: nat, f: FloatText)
    requires i <= INT_MAX
    ensures NumberText(IntText(i)) && NumberValue(IntText(i), f) == Some(Int(i))
  {
    DecimalRoundTrip(i);
    DigitsOnly(Decimal(i), '.');
    DigitsOnly(Decimal(i), 'e');
  }

  lemma {:induction false} ItemsStandFor(items: seq<Value>, f: FloatText)
    requires FloatFreeItems(items) && ReadableItems(items)
    ensures CleanItems(ItemsOf(items), f) && |ItemsOf(items)| == |items|
    ensures PrintItems(ItemsOf(items)) == GenerateItems(items, f) + "]"
    ensures ValuesOf(ItemsOf(items), f) == items
    decreases items, 0
  {
    hide Print, Generate, Clean, Readable, ValueOf, IsGap;
    if items != [] {
      var docs := ItemsOf(items);
      assert docs[1..] == ItemsOf(items[1..]);
      DocStandsFor(items[0], f);
      ItemsStandFor(items[1..], f);
      BareGap(|items| > 1);
    }
  }

  lemma BareGap(more: bool)
    ensures IsGap(Comma(more), ',') && IsGap(":", ':')
  {
    var comma := ",";
    assert Spaces(comma[..0]) && Spaces(comma[1..]);
    var colon := ":";
    assert Spaces(colon[..0]) && Spaces(colon[1..]);
    var none := "";
    assert Spaces(none[..0]);
  }

  lemma BareMember(key: string, value: string, tail: string)
    ensures key + (":" + (value + tail)) == key + ":" + value + tail
  {
  }

  lemma {:induction false} MembersStandFor(entries: seq<Entry>, acc: seq<Entry>, f: FloatText)
    requires FloatFreeEntries(entries) && ReadableEntries(entries) && Ascending(acc + entries)
    ensures CleanMembers(MembersOf(entries), f) && |MembersOf(entries)| == |entries|
    ensures PrintMembers(MembersOf(entries)) == GenerateEntries(entries, f) + "}"
    ensures EntriesOf(MembersOf(entries), acc, f) == acc + entries
    decreases entries, 0
  {
    hide Print, Generate, Clean, Readable, ValueOf, IsGap, Insert, Quoted, Ascending, Less;
    if entries == [] {
      assert acc + entries == acc;
    } else {
      var e := entries[0];
      var docs := MembersOf(entries);
      assert docs[1..] == MembersOf(entries[1..]);
      DocStandsFor(e.value, f);
      AscendingStep(acc, entries);
      MembersStandFor(entries[1..], acc + [e], f);
      BareGap(|entries| > 1);
      BareMember(Quoted(e.key), Generate(e.value, f), Comma(|entries| > 1) + PrintMembers(docs[1..]));
    }
  }

  lemma AscendingStep(acc: seq<Entry>, entries: seq<Entry>)
    requires entries != [] && Ascending(acc + entries)
    ensures Insert(acc, entries[0]) == acc + [entries[0]]
    ensures acc + entries == (acc + [entries[0]]) + entries[1..]
  {
    var e := entries[0];
    forall i | 0 <= i < |acc|
      ensures Less(acc[i].key, e.key)
    {
      assert (acc + entries)[i] == acc[i] && (acc + entries)[|acc|] == e;
    }
    InsertLargestAppends(acc, e);
  }

  lemma NumberIsReadable(s: string, p: nat, f: FloatText)
    requires p < |s| && ParseNumber(s, p, f).Ok?
    ensures Readable(ParseNumber(s, p, f).value)
  {
  }

  lemma StringIsReadable(s: string, p: nat)
    requires p < |s| && ParseString(s, p).Ok?
    ensures Readable(ParseString(s, p).value)
  {
  }

  /** Every value the parser returns is readable. */
  lemma {:induction false} ParsedIsReadable(s: string, pos: nat, f: FloatText)
    requires ParseValue(s, pos, f).Ok?
    ensures Readable(ParseValue(s, pos, f).value)
    decreases Room(s, pos), 1
  {
    hide ParseItems, ParseFields, ParseNumber, ParseString, At, SkipSpace, QuoteFree, IsSpace;
    var p := SkipSpace(s, pos);
    if s[p] == '[' {
      ParsedItemsAreReadable(s, p + 1, [], f);
    } else if s[p] == '{' {
      ParsedFieldsAreReadable(s, p + 1, [], f);
    } else if s[p] == '"' {
      StringIsReadable(s, p);
    } else if s[p] != 'n' && s[p] != 't' && s[p] != 'f' {
      NumberIsReadable(s, p, f);
    }
  }

  lemma {:induction false} ReadableAppend(items: seq<Value>, v: Value)
    requires ReadableItems(items) && Readable(v)
    ensures ReadableItems(items + [v])
    decreases |items|
  {
    if items != [] {
      assert (items + [v])[1..] == items[1..] + [v];
      ReadableAppend(items[1..], v);
    }
  }

  lemma {:induction false} ReadableInsert(entries: seq<Entry>, e: Entry)
    requires ReadableEntries(entries) && QuoteFree(e.key) && Readable(e.value)
    ensures ReadableEntries(Insert(entries, e))
    decreases |entries|
  {
    if entries != [] { ReadableInsert(entries[1..], e); }
  }

  lemma {:induction false} ParsedItemsAreReadable(s: string, pos: nat, acc: seq<Value>, f: FloatText)
    requires ParseItems(s, pos, acc, f).Ok? && ReadableItems(acc)
    ensures Readable(ParseItems(s, pos, acc, f).value)
    decreases Room(s, pos), 2
  {
    if pos < |s| && s[pos] != ']' {
      var r := ParseValue(s, pos, f);
      ParsedIsReadable(s, pos, f);
      ReadableAppend(acc, r.value);
      ParsedItemsAreReadable(s, SkipPast(s, r.pos, ','), acc + [r.value], f);
    }
  }

  lemma {:induction false} ParsedFieldsAreReadable(s: string, pos: nat, acc: seq<Entry>, f: FloatText)
    requires ParseFields(s, pos, acc, f).Ok? && ReadableEntries(acc) && Ascending(acc)
    ensures Readable(ParseFields(s, pos, acc, f).value)
    decreases Room(s, pos), 2
  {
    if pos < |s| && s[pos] != '}' {
      var k := ParseValue(s, pos, f);
      ParsedIsReadable(s, pos, f);
      var q := SkipPast(s, k.pos, ':');
      var v := ParseValue(s, q, f);
      ParsedIsReadable(s, q, f);
      var e := Entry(k.value.s, v.value);
      ReadableInsert(acc, e);
      InsertKeepsAscending(acc, e);
      ParsedFieldsAreReadable(s, SkipPast(s, v.pos, ','), Insert(acc, e), f);
    }
  }

  /** A generated readable value, wherever it stands in a text, is parsed back and nothing more is
      consumed; only behind a number must the text not go on with what a number could swallow. */
  lemma GeneratedIsParsedBack(s: string, pos: nat, v: Value, f: FloatText)
    requires FloatFree(v) && Readable(v) && At(s, pos, Generate(v, f))
    requires v.Int? ==> Stops(s, pos + |Generate(v, f)|)
    ensures ParseValue(s, pos, f) == Ok(v, pos + |Generate(v, f)|)
  {
    DocStandsFor(v, f);
    DocIsRead(s, pos, DocOf(v), f);
  }

  /** Exactly the readable values round-trip: a negative number or a quote anywhere inside, even
      in a key, loses the value. */
  lemma RoundTripIff(v: Value, f: FloatText)
    requires FloatFree(v)
    ensures ParseValue(Generate(v, f), 0, f) == Ok(v, |Generate(v, f)|) <==> Readable(v)
  {
    var s := Generate(v, f);
    if Readable(v) {
      assert s[0..|s|] == s;
      GeneratedIsParsedBack(s, 0, v, f);
    } else if ParseValue(s, 0, f) == Ok(v, |s|) {
      ParsedIsReadable(s, 0, f);
      assert false;
    }
  }

  /** White space inside an empty container's brackets is what the parser does not accept. */
  lemma EmptyContainerIff(ws: string, f: FloatText)
    requires Spaces(ws)
    ensures ParseValue("[" + (ws + "]"), 0, f).Ok? <==> ws == ""
    ensures ParseValue("{" + (ws + "}"), 0, f).Ok? <==> ws == ""
  {
    hide ParseValue, SkipPast, Spaces, Insert;
    EmptyBrackets(ws, '[', ']', f);
    EmptyBrackets(ws, '{', '}', f);
    ArrayStart("[" + (ws + "]"), 0, f);
    ObjectStart("{" + (ws + "}"), 0, f);
  }

  lemma EmptyBrackets(ws: string, open: char, close: char, f: FloatText)
    requires Spaces(ws) && (close == ']' || close == '}')
    ensures var s := [open] + (ws + [close]);
            && (ws == "" ==> s[1] == close)
            && (ws != "" ==> s[1] != close && ParseValue(s, 1, f) == Fail)
  {
    var s := [open] + (ws + [close]);
    assert s[1..1 + |ws|] == ws;
    if ws != "" {
      SkipsExactly(s, 1, ws);
      assert IsSpace(ws[0]) && s[1] == ws[0];
      var p := 1 + |ws|;
      assert s[p] == close;
      JsonClosing.NothingAtBracket(s, p, f);
      SameStart(s, 1, p, f);
    }
  }
}
