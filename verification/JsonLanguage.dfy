/** The language the JSON parser accepts: documents with any white space, in which separators may be
    left out, as the two sides of one equivalence with the parser. */
module JsonLanguage {
  import opened Text
  import opened JsonText
  import JsonClosing

  // ---------- Documents ----------

  /** A container's `lead` is the white space behind its opening bracket. */
  datatype Doc = DNull | DBool(b: bool) | DNumber(text: string) | DStr(s: string)
               | DArray(lead: string, items: seq<Item>) | DObject(lead: string, members: seq<Member>)

  /** The gap behind an element is white space, perhaps with a separator in it. */
  datatype Item = Item(doc: Doc, gap: string)

  datatype Member = Member(key: string, colon: string, doc: Doc, gap: string)

  /** White space by character code: horizontal tab to carriage return, and blank. */
  predicate White(c: char): (white: bool)
    ensures white <==> IsSpace(c)
  {
    9 <= c as int <= 13 || c as int == 32
  }

  /** A digit, a decimal point, or the letter of an exponent. */
  predicate Numeric(c: char): (numeric: bool)
    ensures numeric <==> NumberChar(c)
  {
    48 <= c as int <= 57 || c == '.' || c == 'e'
  }

  /** A numeral with a point or an exponent is what the library reads; any other is a decimal number of at
      most 2147483647. */
  function Meaning(text: string, f: FloatText): (v: Option<Value>)
    requires forall i | 0 <= i < |text| :: Numeric(text[i])
    ensures NumberText(text) && v == NumberValue(text, f)
  {
    assert NumberText(text) by {
      forall i | 0 <= i < |text|
        ensures NumberChar(text[i])
      {
        assert Numeric(text[i]);
      }
    }
    if exists i | 0 <= i < |text| :: text[i] == '.' || text[i] == 'e' then
      match f.read(text) case Some(x) => Some(Float(x)) case None => None
    else
      OnlyDigits(text);
      if text != "" && DecimalValue(text) <= 2147483647 then Some(Int(DecimalValue(text))) else None
  }

  predicate Spaces(s: string) { forall i | 0 <= i < |s| :: White(s[i]) }

  /** White space, with at most one separator in it. */
  ghost predicate IsGap(gap: string, sep: char) {
    exists k | 0 <= k <= |gap| :: Spaces(gap[..k]) && (k == |gap| || (gap[k] == sep && Spaces(gap[k + 1..])))
  }

  predicate QuoteFree(s: string) { '"' !in s }

  function Print(d: Doc): string
    decreases d, 1
  {
    match d
    case DNull => "null"
    case DBool(b) => if b then "true" else "false"
    case DNumber(text) => text
    case DStr(s) => Quoted(s)
    case DArray(lead, items) => "[" + (lead + PrintItems(items))
    case DObject(lead, members) => "{" + (lead + PrintMembers(members))
  }

  /** The elements and the closing bracket. */
  function PrintItems(items: seq<Item>): string
    decreases items, 0
  {
    if items == [] then "]"
    else
      var Item(doc, _) := items[0];
      Print(doc) + ItemTail(items)
  }

  /** From behind an element on. */
  function ItemTail(items: seq<Item>): string
    requires items != []
    decreases items[1..], 1
  {
    items[0].gap + PrintItems(items[1..])
  }

  function PrintMembers(members: seq<Member>): string
    decreases members, 0
  {
    if members == [] then "}"
    else
      var m := members[0];
      Quoted(m.key) + (m.colon + (Print(m.doc) + (m.gap + PrintMembers(members[1..]))))
  }

  /** Text that cannot continue a number. */
  predicate EndsNumber(t: string) { t != "" && !Numeric(t[0]) }

  /** Numbers must be numbers, strings free of quotes, nothing may stand between an empty container's
      brackets, and what follows a number must not continue it. */
  ghost predicate Clean(d: Doc, f: FloatText)
    decreases d, 1
  {
    match d
    case DNull => true
    case DBool(_) => true
    case DNumber(text) => (forall i | 0 <= i < |text| :: Numeric(text[i])) && Meaning(text, f).Some?
    case DStr(s) => QuoteFree(s)
    case DArray(lead, items) => Spaces(lead) && (items == [] ==> lead == "") && CleanItems(items, f)
    case DObject(lead, members) => Spaces(lead) && (members == [] ==> lead == "") && CleanMembers(members, f)
  }

  ghost predicate CleanItems(items: seq<Item>, f: FloatText)
    decreases items, 0
  {
    items == [] || (
      var Item(doc, gap) := items[0];
      && Clean(doc, f) && IsGap(gap, ',') && CleanItems(items[1..], f)
      && (doc.DNumber? ==> EndsNumber(ItemTail(items))))
  }

  ghost predicate CleanMembers(members: seq<Member>, f: FloatText)
    decreases members, 0
  {
    members == [] || (
      var m := members[0];
      && QuoteFree(m.key) && IsGap(m.colon, ':') && Clean(m.doc, f) && IsGap(m.gap, ',')
      && CleanMembers(members[1..], f))
  }

  function ValueOf(d: Doc, f: FloatText): Value
    requires Clean(d, f)
    decreases d, 1
  {
    match d
    case DNull => Null
    case DBool(b) => Bool(b)
    case DNumber(text) => Meaning(text, f).value
    case DStr(s) => Str(s)
    case DArray(_, items) => Array(ValuesOf(items, f))
    case DObject(_, members) => Object(EntriesOf(members, [], f))
  }

  function ValuesOf(items: seq<Item>, f: FloatText): seq<Value>
    requires CleanItems(items, f)
    decreases items, 0
  {
    if items == [] then []
    else
      var Item(doc, _) := items[0];
      [ValueOf(doc, f)] + ValuesOf(items[1..], f)
  }

  /** Members enter the map in text order, so the last one wins for a repeated key. */
  function EntriesOf(members: seq<Member>, acc: seq<Entry>, f: FloatText): seq<Entry>
    requires CleanMembers(members, f)
    decreases members, 0
  {
    if members == [] then acc
    else EntriesOf(members[1..], Insert(acc, Entry(members[0].key, ValueOf(members[0].doc, f))), f)
  }

  /** The values by name, the last one for a repeated name. */
  function LastValues(members: seq<Member>, init: map<string, Value>, f: FloatText): map<string, Value>
    requires CleanMembers(members, f)
  {
    if members == [] then init
    else LastValues(members[1..], init[members[0].key := ValueOf(members[0].doc, f)], f)
  }

  /** An object's entries are its last values by name, in ascending order, and nothing else is. */
  lemma {:induction false} EntriesAreLastValues(members: seq<Member>, acc: seq<Entry>, f: FloatText)
    requires CleanMembers(members, f) && Ascending(acc)
    ensures var entries := EntriesOf(members, acc, f);
            && Ascending(entries) && AsMap(entries) == LastValues(members, AsMap(acc), f)
            && (forall other | Ascending(other) && AsMap(other) == LastValues(members, AsMap(acc), f) ::
                  other == entries)
    decreases |members|
  {
    hide Clean, ValueOf, Insert, Ascending, Less, AsMap;
    if members != [] {
      var e := Entry(members[0].key, ValueOf(members[0].doc, f));
      InsertIsUpdate(acc, e);
      InsertKeepsAscending(acc, e);
      EntriesAreLastValues(members[1..], Insert(acc, e), f);
    } else {
      forall other | Ascending(other) && AsMap(other) == AsMap(acc)
        ensures other == acc
      {
        OneListing(other, acc);
      }
    }
  }

  // ---------- Pieces of text ----------

  lemma AtSplit(s: string, pos: nat, a: string, b: string)
    requires At(s, pos, a + b)
    ensures At(s, pos, a) && At(s, pos + |a|, b)
  {
    var t := s[pos..pos + |a + b|];
    assert s[pos..pos + |a|] == t[..|a|] == a;
    assert s[pos + |a|..pos + |a| + |b|] == t[|a|..] == b;
  }

  lemma AtFirst(s: string, pos: nat, a: string)
    requires At(s, pos, a) && a != ""
    ensures pos < |s| && s[pos] == a[0]
  {
    assert s[pos..pos + |a|][0] == s[pos];
  }

  lemma {:induction false} SkipsExactly(s: string, pos: nat, ws: string)
    requires At(s, pos, ws) && Spaces(ws)
    requires pos + |ws| < |s| ==> !IsSpace(s[pos + |ws|])
    ensures SkipSpace(s, pos) == pos + |ws|
    decreases |ws|
  {
    if ws != "" {
      AtFirst(s, pos, ws);
      assert ws == ws[..1] + ws[1..];
      AtSplit(s, pos, ws[..1], ws[1..]);
      SkipsExactly(s, pos + 1, ws[1..]);
    }
  }

  /** Leading space makes no difference to a value. */
  lemma SpaceBeforeValue(s: string, pos: nat, ws: string, f: FloatText)
    requires At(s, pos, ws) && Spaces(ws)
    requires pos + |ws| < |s| ==> !IsSpace(s[pos + |ws|])
    ensures ParseValue(s, pos, f) == ParseValue(s, pos + |ws|, f)
  {
    hide At, Spaces, IsSpace;
    SkipsExactly(s, pos, ws);
    assert SkipSpace(s, pos + |ws|) == pos + |ws|;
    SameStart(s, pos, pos + |ws|, f);
  }

  lemma SameStart(s: string, a: nat, b: nat, f: FloatText)
    requires SkipSpace(s, a) == SkipSpace(s, b)
    ensures ParseValue(s, a, f) == ParseValue(s, b, f)
  {
    hide SkipSpace, At, ParseString, ParseItems, ParseFields, ParseNumber;
  }

  /** The text does not go on with a character a number could swallow. */
  predicate Stops(s: string, pos: nat) { pos < |s| ==> !Numeric(s[pos]) }

  lemma AtJoin(s: string, pos: nat, a: string, b: string)
    requires At(s, pos, a) && At(s, pos + |a|, b)
    ensures At(s, pos, a + b)
  {
    assert s[pos..pos + |a| + |b|] == s[pos..pos + |a|] + s[pos + |a|..pos + |a| + |b|];
  }

  lemma {:induction false} NumberEndIs(s: string, pos: nat, text: string)
    requires At(s, pos, text) && NumberText(text) && Stops(s, pos + |text|)
    ensures NumberEnd(s, pos) == pos + |text|
    decreases |text|
  {
    if text != "" {
      AtFirst(s, pos, text);
      assert NumberChar(text[0]);
      assert text == text[..1] + text[1..];
      AtSplit(s, pos, text[..1], text[1..]);
      NumberEndIs(s, pos + 1, text[1..]);
    }
  }

  lemma NumberIsNotEmpty(text: string, f: FloatText)
    requires NumberText(text) && NumberValue(text, f).Some?
    ensures text != ""
  {
  }

  lemma NumberIsRead(s: string, pos: nat, text: string, f: FloatText)
    requires At(s, pos, text) && NumberText(text) && NumberValue(text, f).Some? && Stops(s, pos + |text|)
    ensures ParseValue(s, pos, f) == Ok(NumberValue(text, f).value, pos + |text|)
  {
    NumberIsNotEmpty(text, f);
    AtFirst(s, pos, text);
    NumberEndIs(s, pos, text);
    hide ParseItems, ParseFields, ParseString;
  }

  lemma {:induction false} QuoteEndIs(s: string, pos: nat, text: string)
    requires At(s, pos, text) && QuoteFree(text) && pos + |text| < |s| && s[pos + |text|] == '"'
    ensures QuoteEnd(s, pos) == pos + |text|
    decreases |text|
  {
    if text != "" {
      AtFirst(s, pos, text);
      assert text == text[..1] + text[1..];
      AtSplit(s, pos, text[..1], text[1..]);
      QuoteEndIs(s, pos + 1, text[1..]);
    }
  }

  lemma StringBody(s: string, pos: nat, text: string)
    requires At(s, pos + 1, text) && QuoteFree(text) && pos + 1 + |text| < |s| && s[pos + 1 + |text|] == '"'
    ensures ParseString(s, pos) == Ok(Str(text), pos + |text| + 2)
  {
    QuoteEndIs(s, pos + 1, text);
  }

  lemma StringIsRead(s: string, pos: nat, text: string, f: FloatText)
    requires At(s, pos, Quoted(text)) && QuoteFree(text)
    ensures ParseValue(s, pos, f) == Ok(Str(text), pos + |Quoted(text)|)
  {
    hide At, ParseValue, ParseString, QuoteFree;
    var rest := text + "\"";
    assert Quoted(text) == "\"" + rest;
    AtSplit(s, pos, "\"", rest);
    AtSplit(s, pos + 1, text, "\"");
    AtFirst(s, pos, "\"");
    AtFirst(s, pos + 1 + |text|, "\"");
    StringBody(s, pos, text);
    StringStart(s, pos, f);
  }

  lemma StringStart(s: string, p: nat, f: FloatText)
    requires p < |s| && s[p] == '"'
    ensures ParseValue(s, p, f) == ParseString(s, p)
  {
    hide ParseString, ParseItems, ParseFields, ParseNumber;
  }

  lemma ArrayStart(s: string, p: nat, f: FloatText)
    requires p < |s| && s[p] == '['
    ensures ParseValue(s, p, f) == ParseItems(s, p + 1, [], f)
  {
    hide ParseString, ParseItems, ParseFields, ParseNumber;
  }

  lemma ObjectStart(s: string, p: nat, f: FloatText)
    requires p < |s| && s[p] == '{'
    ensures ParseValue(s, p, f) == ParseFields(s, p + 1, [], f)
  {
    hide ParseString, ParseItems, ParseFields, ParseNumber;
  }

  lemma WordIsRead(s: string, p: nat, f: FloatText)
    ensures At(s, p, "null") ==> ParseValue(s, p, f) == Ok(Null, p + 4)
    ensures At(s, p, "true") ==> ParseValue(s, p, f) == Ok(Bool(true), p + 4)
    ensures At(s, p, "false") ==> ParseValue(s, p, f) == Ok(Bool(false), p + 5)
  {
    if At(s, p, "null") { AtFirst(s, p, "null"); }
    if At(s, p, "true") { AtFirst(s, p, "true"); }
    if At(s, p, "false") { AtFirst(s, p, "false"); }
    hide ParseString, ParseItems, ParseFields, ParseNumber;
  }

  lemma FirstCharacter(d: Doc, f: FloatText)
    requires Clean(d, f)
    ensures Print(d) != ""
    ensures var c := Print(d)[0]; !IsSpace(c) && c != ']' && c != '}' && c != ',' && c != ':'
  {
    match d
    case DNumber(text) =>
      NumberIsNotEmpty(text, f);
      assert NumberChar(text[0]);
    case DStr(s) => assert Quoted(s)[0] == '"';
    case _ =>
  }

  lemma ItemStep(s: string, pos: nat, acc: seq<Value>, f: FloatText, v: Value, p: nat)
    requires pos < |s| && s[pos] != ']' && ParseValue(s, pos, f) == Ok(v, p)
    ensures ParseItems(s, pos, acc, f) == ParseItems(s, SkipPast(s, p, ','), acc + [v], f)
  {
    hide ParseValue, SkipPast;
  }

  lemma ItemsEnd(s: string, pos: nat, acc: seq<Value>, f: FloatText)
    requires pos < |s| && s[pos] == ']'
    ensures ParseItems(s, pos, acc, f) == Ok(Array(acc), pos + 1)
  {
    hide ParseValue, SkipPast;
  }

  lemma MemberStep(s: string, pos: nat, acc: seq<Entry>, f: FloatText, key: string, p: nat, v: Value, q: nat)
    requires pos < |s| && s[pos] != '}' && ParseValue(s, pos, f) == Ok(Str(key), p)
    requires ParseValue(s, SkipPast(s, p, ':'), f) == Ok(v, q)
    ensures ParseFields(s, pos, acc, f) == ParseFields(s, SkipPast(s, q, ','), Insert(acc, Entry(key, v)), f)
  {
    hide ParseValue, SkipPast, Insert;
  }

  lemma MembersEnd(s: string, pos: nat, acc: seq<Entry>, f: FloatText)
    requires pos < |s| && s[pos] == '}'
    ensures ParseFields(s, pos, acc, f) == Ok(Object(acc), pos + 1)
  {
    hide ParseValue, SkipPast, Insert;
  }

  // ---------- Reading a document ----------

  /** White space, a separator, and more white space. */
  lemma SeparatedGap(s: string, pos: nat, before: string, sep: char, after: string)
    requires At(s, pos, before + ([sep] + after)) && Spaces(before) && Spaces(after) && !IsSpace(sep)
    requires var q := pos + |before| + 1 + |after|; q < |s| && !IsSpace(s[q])
    ensures SkipPast(s, pos, sep) == pos + |before| + 1 + |after|
  {
    hide At, SkipSpace, IsSpace, Spaces;
    var a := pos + |before|;
    AtSplit(s, pos, before, [sep] + after);
    AtSplit(s, a, [sep], after);
    AtFirst(s, a, [sep]);
    SkipsExactly(s, pos, before);
    SkipsExactly(s, a + 1, after);
  }

  lemma BareGap(s: string, pos: nat, gap: string, sep: char)
    requires At(s, pos, gap) && Spaces(gap)
    requires var q := pos + |gap|; q < |s| && !IsSpace(s[q]) && s[q] != sep
    ensures SkipPast(s, pos, sep) == pos + |gap|
  {
    hide At, IsSpace, Spaces;
    SkipsExactly(s, pos, gap);
    assert SkipSpace(s, pos + |gap|) == pos + |gap|;
    hide SkipSpace;
  }

  /** A gap is skipped up to what follows it. */
  lemma GapIsSkipped(s: string, pos: nat, gap: string, sep: char, next: string)
    requires At(s, pos, gap + next) && IsGap(gap, sep) && (sep == ',' || sep == ':')
    requires next != "" && !IsSpace(next[0]) && next[0] != sep
    ensures SkipPast(s, pos, sep) == pos + |gap| && At(s, pos + |gap|, next)
  {
    assert !IsSpace(sep);
    hide At, SkipPast, IsSpace, Spaces, IsGap;
    AtSplit(s, pos, gap, next);
    AtFirst(s, pos + |gap|, next);
    var before, after := GapParts(gap, sep);
    if gap == before {
      BareGap(s, pos, gap, sep);
    } else {
      SeparatedGap(s, pos, before, sep, after);
    }
  }

  lemma GapParts(gap: string, sep: char) returns (before: string, after: string)
    requires IsGap(gap, sep)
    ensures Spaces(before) && Spaces(after) && (gap == before || gap == before + ([sep] + after))
  {
    var k :| 0 <= k <= |gap| && Spaces(gap[..k]) && (k == |gap| || (gap[k] == sep && Spaces(gap[k + 1..])));
    before, after := gap[..k], if k < |gap| then gap[k + 1..] else "";
  }

  /** White space before the first element makes no difference. */
  lemma LeadIsSkipped(s: string, pos: nat, lead: string, f: FloatText)
    requires At(s, pos, lead) && Spaces(lead)
    requires var q := pos + |lead|; q < |s| && !IsSpace(s[q]) && s[q] != ']' && s[q] != '}'
    ensures ParseItems(s, pos, [], f) == ParseItems(s, pos + |lead|, [], f)
    ensures ParseFields(s, pos, [], f) == ParseFields(s, pos + |lead|, [], f)
  {
    hide At, ParseValue, SkipPast, Insert;
    SpaceBeforeValue(s, pos, lead, f);
    if lead != "" { AtFirst(s, pos, lead); assert IsSpace(lead[0]); }
  }

  /** A clean document, wherever it stands in a text, is read as its value, up to its end; only behind
      a number must the text not continue it. */
  lemma {:induction false} DocIsRead(s: string, pos: nat, d: Doc, f: FloatText)
    requires Clean(d, f) && At(s, pos, Print(d)) && (d.DNumber? ==> Stops(s, pos + |Print(d)|))
    ensures ParseValue(s, pos, f) == Ok(ValueOf(d, f), pos + |Print(d)|)
    decreases d, 1
  {
    hide At, ParseValue, ParseItems, ParseFields, CleanItems, CleanMembers, ValuesOf, EntriesOf;
    hide PrintItems, PrintMembers, NumberValue;
    match d
    case DNull => WordIsRead(s, pos, f);
    case DBool(b) => WordIsRead(s, pos, f);
    case DNumber(text) => NumberIsRead(s, pos, text, f);
    case DStr(text) => StringIsRead(s, pos, text, f);
    case DArray(lead, items) => ArrayIsRead(s, pos, lead, items, f);
    case DObject(lead, members) => ObjectIsRead(s, pos, lead, members, f);
  }

  lemma AtContainer(s: string, pos: nat, open: string, lead: string, rest: string)
    requires At(s, pos, open + (lead + rest)) && |open| == 1
    ensures pos < |s| && s[pos] == open[0] && At(s, pos + 1, lead) && At(s, pos + 1 + |lead|, rest)
  {
    hide At;
    AtSplit(s, pos, open, lead + rest);
    AtSplit(s, pos + 1, lead, rest);
    AtFirst(s, pos, open);
  }

  lemma {:induction false} ArrayIsRead(s: string, pos: nat, lead: string, items: seq<Item>, f: FloatText)
    requires Spaces(lead) && (items == [] ==> lead == "") && CleanItems(items, f)
    requires At(s, pos, "[" + (lead + PrintItems(items)))
    ensures ParseValue(s, pos, f) == Ok(Array(ValuesOf(items, f)), pos + 1 + |lead| + |PrintItems(items)|)
    decreases items, 1
  {
    hide At, ParseValue, ParseItems, CleanItems, ValuesOf, PrintItems, Spaces, IsSpace, SkipPast, SkipSpace;
    AtContainer(s, pos, "[", lead, PrintItems(items));
    ArrayStart(s, pos, f);
    ItemsAreRead(s, pos + 1 + |lead|, items, [], f);
    if items != [] { LeadIsSkipped(s, pos + 1, lead, f); }
    assert [] + ValuesOf(items, f) == ValuesOf(items, f);
  }

  lemma {:induction false} ObjectIsRead(s: string, pos: nat, lead: string, members: seq<Member>, f: FloatText)
    requires Spaces(lead) && (members == [] ==> lead == "") && CleanMembers(members, f)
    requires At(s, pos, "{" + (lead + PrintMembers(members)))
    ensures ParseValue(s, pos, f)
         == Ok(Object(EntriesOf(members, [], f)), pos + 1 + |lead| + |PrintMembers(members)|)
    decreases members, 1
  {
    hide At, ParseValue, ParseFields, CleanMembers, EntriesOf, PrintMembers, Spaces, IsSpace, SkipPast, SkipSpace;
    AtContainer(s, pos, "{", lead, PrintMembers(members));
    ObjectStart(s, pos, f);
    MembersAreRead(s, pos + 1 + |lead|, members, [], f);
    if members != [] { LeadIsSkipped(s, pos + 1, lead, f); }
  }

  /** What follows an element: a closing bracket, or a value that is neither space nor separator. */
  lemma ItemsStart(items: seq<Item>, f: FloatText)
    requires CleanItems(items, f)
    ensures var t := PrintItems(items); t != "" && !IsSpace(t[0]) && t[0] != ',' && (t[0] == ']' <==> items == [])
    ensures items != [] ==> PrintItems(items)[0] != '}'
  {
    hide Print, Clean;
    if items != [] { FirstCharacter(items[0].doc, f); }
  }

  lemma {:induction false} ItemsAreRead(s: string, pos: nat, items: seq<Item>, acc: seq<Value>, f: FloatText)
    requires CleanItems(items, f) && At(s, pos, PrintItems(items))
    ensures ParseItems(s, pos, acc, f) == Ok(Array(acc + ValuesOf(items, f)), pos + |PrintItems(items)|)
    ensures pos < |s| && !IsSpace(s[pos]) && (items != [] ==> s[pos] != ']' && s[pos] != '}')
    decreases items, 0
  {
    hide At, ParseValue, ParseItems, SkipPast, Print, ValueOf, Clean, Spaces, IsSpace, NumberChar;
    ItemsStart(items, f);
    AtFirst(s, pos, PrintItems(items));
    if items == [] {
      ItemsEnd(s, pos, acc, f);
      assert acc + ValuesOf(items, f) == acc;
    } else {
      var Item(doc, gap) := items[0];
      var end := pos + |Print(doc)|;
      AtSplit(s, pos, Print(doc), ItemTail(items));
      if doc.DNumber? { AtFirst(s, end, ItemTail(items)); }
      DocIsRead(s, pos, doc, f);
      ItemStep(s, pos, acc, f, ValueOf(doc, f), end);
      ItemsStart(items[1..], f);
      GapIsSkipped(s, end, gap, ',', PrintItems(items[1..]));
      ItemsAreRead(s, SkipPast(s, end, ','), items[1..], acc + [ValueOf(doc, f)], f);
      Regroup(acc, [ValueOf(doc, f)], ValuesOf(items[1..], f));
    }
  }

  lemma MembersStart(members: seq<Member>)
    ensures var t := PrintMembers(members); t != "" && t[0] == if members == [] then '}' else '"'
  {
    if members != [] { assert Quoted(members[0].key)[0] == '"'; }
  }

  /** Behind a member's value there is nothing a number could swallow. */
  lemma GapEndsNumber(s: string, pos: nat, gap: string, next: string)
    requires At(s, pos, gap + next) && IsGap(gap, ',') && next != "" && !NumberChar(next[0])
    ensures Stops(s, pos)
  {
    AtFirst(s, pos, gap + next);
    var k :| 0 <= k <= |gap| && Spaces(gap[..k]) && (k == |gap| || (gap[k] == ',' && Spaces(gap[k + 1..])));
    if k > 0 { assert IsSpace(gap[..k][0]); }
  }

  /** A member's key and colon. */
  lemma KeyIsRead(s: string, pos: nat, m: Member, rest: string, f: FloatText)
    requires QuoteFree(m.key) && IsGap(m.colon, ':') && Clean(m.doc, f)
    requires At(s, pos, Quoted(m.key) + (m.colon + (Print(m.doc) + rest)))
    ensures var p := pos + |Quoted(m.key)|;
            var q := p + |m.colon|;
            && pos < |s| && s[pos] == '"' && ParseValue(s, pos, f) == Ok(Str(m.key), p)
            && SkipPast(s, p, ':') == q && At(s, q, Print(m.doc) + rest)
  {
    hide At, ParseValue, SkipPast, Print, Clean, QuoteFree;
    FirstCharacter(m.doc, f);
    AtSplit(s, pos, Quoted(m.key), m.colon + (Print(m.doc) + rest));
    AtFirst(s, pos, Quoted(m.key));
    StringIsRead(s, pos, m.key, f);
    GapIsSkipped(s, pos + |Quoted(m.key)|, m.colon, ':', Print(m.doc) + rest);
  }

  lemma {:induction false} MembersAreRead(s: string, pos: nat, members: seq<Member>, acc: seq<Entry>, f: FloatText)
    requires CleanMembers(members, f) && At(s, pos, PrintMembers(members))
    ensures ParseFields(s, pos, acc, f) == Ok(Object(EntriesOf(members, acc, f)), pos + |PrintMembers(members)|)
    ensures pos < |s| && !IsSpace(s[pos]) && (members != [] ==> s[pos] != ']' && s[pos] != '}')
    decreases members, 0
  {
    hide At, ParseValue, ParseFields, SkipPast, Print, ValueOf, Clean, Spaces, Quoted, Insert;
    MembersStart(members);
    AtFirst(s, pos, PrintMembers(members));
    if members == [] {
      MembersEnd(s, pos, acc, f);
    } else {
      var m := members[0];
      var next := PrintMembers(members[1..]);
      KeyIsRead(s, pos, m, m.gap + next, f);
      var p := pos + |Quoted(m.key)|;
      var q := p + |m.colon|;
      var end := q + |Print(m.doc)|;
      AtSplit(s, q, Print(m.doc), m.gap + next);
      MembersStart(members[1..]);
      GapEndsNumber(s, end, m.gap, next);
      DocIsRead(s, q, m.doc, f);
      MemberStep(s, pos, acc, f, m.key, p, ValueOf(m.doc, f), end);
      GapIsSkipped(s, end, m.gap, ',', next);
      MembersAreRead(s, SkipPast(s, end, ','), members[1..], Insert(acc, Entry(m.key, ValueOf(m.doc, f))), f);
    }
  }

  // ---------- Finding the document that was read ----------

  /** What is skipped between two values is a gap. */
  lemma GapStands(s: string, pos: nat, sep: char)
    requires SkipPast(s, pos, sep) <= |s|
    ensures var gap := s[pos..SkipPast(s, pos, sep)];
            IsGap(gap, sep) && At(s, pos, gap) && (SkipPast(s, pos, sep) < |s| ==> !IsSpace(s[SkipPast(s, pos, sep)]))
  {
    hide IsSpace;
    var a, end := SkipSpace(s, pos), SkipPast(s, pos, sep);
    var gap, k := s[pos..end], a - pos;
    assert gap[..k] == s[pos..a] && Spaces(gap[..k]);
    if a < |s| && s[a] == sep {
      assert gap[k] == sep && gap[k + 1..] == s[a + 1..end] && Spaces(gap[k + 1..]);
    } else {
      assert SkipSpace(s, a) == a;
      assert k == |gap|;
    }
  }

  /** A document stands behind white space and is the value that was read. */
  ghost predicate Stands(s: string, pos: nat, ws: string, d: Doc, f: FloatText, v: Value, p: nat) {
    && Spaces(ws) && Clean(d, f) && At(s, pos, ws + Print(d)) && p == pos + |ws| + |Print(d)|
    && (d.DNumber? ==> Stops(s, p)) && ValueOf(d, f) == v
  }

  lemma WordStands(s: string, p: nat, f: FloatText)
    requires p < |s| && (s[p] == 'n' || s[p] == 't' || s[p] == 'f') && !IsSpace(s[p]) && ParseValue(s, p, f).Ok?
    ensures var r := ParseValue(s, p, f);
            && (s[p] == 'n' ==> Stands(s, p, "", DNull, f, r.value, r.pos))
            && (s[p] == 't' ==> Stands(s, p, "", DBool(true), f, r.value, r.pos))
            && (s[p] == 'f' ==> Stands(s, p, "", DBool(false), f, r.value, r.pos))
  {
    assert "" + "null" == "null" && "" + "true" == "true" && "" + "false" == "false";
    hide ParseItems, ParseFields, ParseNumber, ParseString;
  }

  lemma StringStands(s: string, p: nat, f: FloatText)
    requires p < |s| && s[p] == '"'
    requires ParseString(s, p).Ok? && ParseString(s, p).pos <= |s|
    ensures var r := ParseString(s, p); r.value.Str? && Stands(s, p, "", DStr(r.value.s), f, r.value, r.pos)
  {
    var end := QuoteEnd(s, p + 1);
    var text := s[p + 1..end];
    assert s[p..end + 1] == "\"" + text + "\"" == "" + Quoted(text);
  }

  lemma NumberStands(s: string, p: nat, f: FloatText)
    requires p < |s| && ParseNumber(s, p, f).Ok?
    ensures var r := ParseNumber(s, p, f);
            r.pos <= |s| && Stands(s, p, "", DNumber(s[p..r.pos]), f, r.value, r.pos)
  {
    hide NumberValue;
    var text := s[p..NumberEnd(s, p)];
    assert "" + text == text;
  }

  /** Whatever is read within the text is a document that stands there. */
  lemma {:induction false} ValueIsDoc(s: string, pos: nat, f: FloatText) returns (ws: string, d: Doc)
    requires var r := ParseValue(s, pos, f); r.Ok? && r.pos <= |s|
    ensures var r := ParseValue(s, pos, f); Stands(s, pos, ws, d, f, r.value, r.pos)
    ensures pos < |s| && (!IsSpace(s[pos]) ==> ws == "")
    decreases Room(s, pos), 1
  {
    hide At, ParseItems, ParseFields, ParseNumber, ParseString, SkipSpace, IsSpace, Clean, Print, ValueOf;
    var p := SkipSpace(s, pos);
    ws := s[pos..p];
    WhiteStands(s, pos);
    SameStart(s, pos, p, f);
    if s[p] == 'n' || s[p] == 't' || s[p] == 'f' {
      WordStands(s, p, f);
      d := if s[p] == 'n' then DNull else DBool(s[p] == 't');
    } else if s[p] == '"' {
      StringStands(s, p, f);
      d := DStr(ParseString(s, p).value.s);
    } else if s[p] == '[' {
      d := ArrayIsDoc(s, p, f);
    } else if s[p] == '{' {
      d := ObjectIsDoc(s, p, f);
    } else {
      NumberStands(s, p, f);
      d := DNumber(s[p..ParseNumber(s, p, f).pos]);
    }
    var r := ParseValue(s, pos, f);
    SpaceBefore(s, pos, ws, d, f, r.value, r.pos);
  }

  lemma WhiteStands(s: string, pos: nat)
    requires SkipSpace(s, pos) <= |s|
    ensures var p := SkipSpace(s, pos); Spaces(s[pos..p]) && At(s, pos, s[pos..p]) && SkipSpace(s, p) == p
  {
  }

  lemma SpaceBefore(s: string, pos: nat, ws: string, d: Doc, f: FloatText, v: Value, p: nat)
    requires At(s, pos, ws) && Spaces(ws) && Stands(s, pos + |ws|, "", d, f, v, p)
    ensures Stands(s, pos, ws, d, f, v, p)
  {
    hide At, Spaces, Clean, Print, ValueOf;
    assert "" + Print(d) == Print(d);
    AtJoin(s, pos, ws, Print(d));
  }

  /** White space before a container's first value. */
  lemma LeadStands(s: string, pos: nat, f: FloatText)
    requires ParseValue(s, pos, f).Ok?
    ensures var q := SkipSpace(s, pos);
            && pos <= q < |s| && !IsSpace(s[q]) && s[q] != ']' && s[q] != '}'
            && Spaces(s[pos..q]) && At(s, pos, s[pos..q]) && ParseValue(s, q, f) == ParseValue(s, pos, f)
  {
    var q := SkipSpace(s, pos);
    assert SkipSpace(s, q) == q;
    SameStart(s, pos, q, f);
    if q < |s| && (s[q] == ']' || s[q] == '}') { JsonClosing.NothingAtBracket(s, q, f); }
    hide ParseItems, ParseFields, ParseNumber, ParseString;
  }

  lemma {:induction false} ArrayIsDoc(s: string, p: nat, f: FloatText) returns (d: Doc)
    requires p < |s| && s[p] == '['
    requires var r := ParseItems(s, p + 1, [], f); r.Ok? && r.pos <= |s|
    ensures var r := ParseItems(s, p + 1, [], f); d.DArray? && Stands(s, p, "", d, f, r.value, r.pos)
    decreases Room(s, p), 0
  {
    hide At, ParseValue, SkipPast, SkipSpace, IsSpace, CleanItems, PrintItems, ValuesOf, Spaces;
    var lead, items := "", [];
    if p + 1 < |s| && s[p + 1] != ']' {
      LeadStands(s, p + 1, f);
      var q := SkipSpace(s, p + 1);
      lead := s[p + 1..q];
      LeadIsSkipped(s, p + 1, lead, f);
      items := ItemsAreDocs(s, q, [], f);
      ItemsStart(items, f);
      AtFirst(s, q, PrintItems(items));
    } else {
      EmptyStands(s, p + 1, f);
    }
    d := DArray(lead, items);
    assert [] + ValuesOf(items, f) == ValuesOf(items, f);
    ArrayStands(s, p, lead, items, f);
  }

  lemma EmptyStands(s: string, pos: nat, f: FloatText)
    ensures Spaces("") && At(s, 0, "") && (pos <= |s| ==> At(s, pos, ""))
    ensures CleanItems([], f) && ValuesOf([], f) == [] && PrintItems([]) == "]"
    ensures CleanMembers([], f) && EntriesOf([], [], f) == [] && PrintMembers([]) == "}"
    ensures pos < |s| && s[pos] == ']' ==> At(s, pos, "]")
    ensures pos < |s| && s[pos] == '}' ==> At(s, pos, "}")
  {
  }

  lemma ContainerStands(s: string, p: nat, open: string, lead: string, rest: string)
    requires p < |s| && open == [s[p]] && At(s, p + 1, lead) && At(s, p + 1 + |lead|, rest)
    ensures At(s, p, "" + (open + (lead + rest))) && |open + (lead + rest)| == 1 + |lead| + |rest|
  {
    assert At(s, p, open);
    AtJoin(s, p + 1, lead, rest);
    AtJoin(s, p, open, lead + rest);
    assert "" + (open + (lead + rest)) == open + (lead + rest);
  }

  lemma ArrayStands(s: string, p: nat, lead: string, items: seq<Item>, f: FloatText)
    requires p < |s| && s[p] == '[' && At(s, p + 1, lead) && At(s, p + 1 + |lead|, PrintItems(items))
    requires Spaces(lead) && (items == [] ==> lead == "") && CleanItems(items, f)
    ensures Stands(s, p, "", DArray(lead, items), f, Array(ValuesOf(items, f)), p + 1 + |lead| + |PrintItems(items)|)
  {
    hide At, CleanItems, PrintItems, ValuesOf, Spaces;
    ContainerStands(s, p, "[", lead, PrintItems(items));
    EmptyStands(s, p, f);
  }

  lemma ObjectStands(s: string, p: nat, lead: string, members: seq<Member>, f: FloatText)
    requires p < |s| && s[p] == '{' && At(s, p + 1, lead) && At(s, p + 1 + |lead|, PrintMembers(members))
    requires Spaces(lead) && (members == [] ==> lead == "") && CleanMembers(members, f)
    ensures Stands(s, p, "", DObject(lead, members), f, Object(EntriesOf(members, [], f)),
                   p + 1 + |lead| + |PrintMembers(members)|)
  {
    hide At, CleanMembers, PrintMembers, EntriesOf, Spaces;
    ContainerStands(s, p, "{", lead, PrintMembers(members));
    EmptyStands(s, p, f);
  }

  lemma {:induction false} ItemsAreDocs(s: string, pos: nat, acc: seq<Value>, f: FloatText) returns (items: seq<Item>)
    requires pos < |s| && !IsSpace(s[pos])
    requires var r := ParseItems(s, pos, acc, f); r.Ok? && r.pos <= |s|
    ensures CleanItems(items, f) && At(s, pos, PrintItems(items))
    ensures ParseItems(s, pos, acc, f) == Ok(Array(acc + ValuesOf(items, f)), pos + |PrintItems(items)|)
    decreases Room(s, pos), 2
  {
    hide At, ParseValue, SkipPast, IsSpace, Print, ValueOf, Clean, Spaces, NumberChar;
    if s[pos] == ']' {
      items := [];
      EmptyStands(s, pos, f);
      assert acc + [] == acc;
      return;
    }
    var v := ParseValue(s, pos, f);
    var q := SkipPast(s, v.pos, ',');
    ItemsEndWithin(s, q, acc + [v.value], f);
    var ws, d := ValueIsDoc(s, pos, f);
    var gap := s[v.pos..q];
    GapStands(s, v.pos, ',');
    var rest := ItemsAreDocs(s, q, acc + [v.value], f);
    items := [Item(d, gap)] + rest;
    assert items[1..] == rest && "" + Print(d) == Print(d);
    AtJoin(s, v.pos, gap, PrintItems(rest));
    AtJoin(s, pos, Print(d), ItemTail(items));
    AtFirst(s, v.pos, ItemTail(items));
    Regroup(acc, [v.value], ValuesOf(rest, f));
  }

  lemma ItemsEndWithin(s: string, q: nat, acc: seq<Value>, f: FloatText)
    requires var r := ParseItems(s, q, acc, f); r.Ok? && r.pos <= |s|
    ensures q < |s|
  {
    hide ParseValue;
  }

  lemma {:induction false} ObjectIsDoc(s: string, p: nat, f: FloatText) returns (d: Doc)
    requires p < |s| && s[p] == '{'
    requires var r := ParseFields(s, p + 1, [], f); r.Ok? && r.pos <= |s|
    ensures var r := ParseFields(s, p + 1, [], f); d.DObject? && Stands(s, p, "", d, f, r.value, r.pos)
    decreases Room(s, p), 0
  {
    hide At, ParseValue, SkipPast, SkipSpace, IsSpace, CleanMembers, PrintMembers, EntriesOf, Spaces, Insert;
    var lead, members := "", [];
    if p + 1 < |s| && s[p + 1] != '}' {
      LeadStands(s, p + 1, f);
      var q := SkipSpace(s, p + 1);
      lead := s[p + 1..q];
      LeadIsSkipped(s, p + 1, lead, f);
      members := MembersAreDocs(s, q, [], f);
      MembersStart(members);
      AtFirst(s, q, PrintMembers(members));
    } else {
      EmptyStands(s, p + 1, f);
    }
    d := DObject(lead, members);
    ObjectStands(s, p, lead, members, f);
  }

  lemma {:induction false} MembersAreDocs(s: string, pos: nat, acc: seq<Entry>, f: FloatText)
    returns (members: seq<Member>)
    requires pos < |s| && !IsSpace(s[pos])
    requires var r := ParseFields(s, pos, acc, f); r.Ok? && r.pos <= |s|
    ensures CleanMembers(members, f) && At(s, pos, PrintMembers(members))
    ensures ParseFields(s, pos, acc, f) == Ok(Object(EntriesOf(members, acc, f)), pos + |PrintMembers(members)|)
    decreases Room(s, pos), 2
  {
    hide At, ParseValue, SkipPast, IsSpace, Print, ValueOf, Clean, Spaces, NumberChar, Insert, Quoted;
    if s[pos] == '}' {
      members := [];
      EmptyStands(s, pos, f);
      return;
    }
    var k := ParseValue(s, pos, f);
    var q := SkipPast(s, k.pos, ':');
    var v := ParseValue(s, q, f);
    var end := SkipPast(s, v.pos, ',');
    FieldsEndWithin(s, end, Insert(acc, Entry(k.value.s, v.value)), f);
    KeyIsDoc(s, pos, f);
    var ws, d := ValueIsDoc(s, q, f);
    var colon, gap := s[k.pos..q], s[v.pos..end];
    GapStands(s, k.pos, ':');
    GapStands(s, v.pos, ',');
    var rest := MembersAreDocs(s, end, Insert(acc, Entry(k.value.s, v.value)), f);
    members := [Member(k.value.s, colon, d, gap)] + rest;
    assert members[1..] == rest;
    MemberStands(s, pos, Quoted(k.value.s), colon, Print(d), gap, PrintMembers(rest));
  }

  /** The five parts of a member, one behind the other. */
  lemma MemberStands(s: string, pos: nat, key: string, colon: string, value: string, gap: string, rest: string)
    requires At(s, pos, key) && At(s, pos + |key|, colon)
    requires var q := pos + |key| + |colon|;
             At(s, q, "" + value) && At(s, q + |value|, gap) && At(s, q + |value| + |gap|, rest)
    ensures At(s, pos, key + (colon + (value + (gap + rest))))
    ensures |key + (colon + (value + (gap + rest)))| == |key| + |colon| + |value| + |gap| + |rest|
  {
    hide At;
    var q := pos + |key| + |colon|;
    assert "" + value == value;
    AtJoin(s, q + |value|, gap, rest);
    AtJoin(s, q, value, gap + rest);
    AtJoin(s, pos + |key|, colon, value + (gap + rest));
    AtJoin(s, pos, key, colon + (value + (gap + rest)));
  }

  lemma FieldsEndWithin(s: string, q: nat, acc: seq<Entry>, f: FloatText)
    requires var r := ParseFields(s, q, acc, f); r.Ok? && r.pos <= |s|
    ensures q < |s|
  {
    hide ParseValue;
  }

  /** A string read as a key is quoted text that stands there. */
  lemma KeyIsDoc(s: string, pos: nat, f: FloatText)
    requires pos < |s| && !IsSpace(s[pos])
    requires var r := ParseValue(s, pos, f); r.Ok? && r.value.Str? && r.pos <= |s|
    ensures var r := ParseValue(s, pos, f);
            QuoteFree(r.value.s) && At(s, pos, Quoted(r.value.s)) && r.pos == pos + |Quoted(r.value.s)|
  {
    hide At, ParseItems, ParseFields, ParseString, NumberValue;
    assert SkipSpace(s, pos) == pos;
    OnlyStringsAreStrings(s, pos, f);
    StringStands(s, pos, f);
    var text := ParseString(s, pos).value.s;
    assert "" + Quoted(text) == Quoted(text);
  }

  lemma OnlyStringsAreStrings(s: string, pos: nat, f: FloatText)
    requires pos < |s| && SkipSpace(s, pos) == pos
    requires var r := ParseValue(s, pos, f); r.Ok? && r.value.Str?
    ensures s[pos] == '"' && ParseValue(s, pos, f) == ParseString(s, pos)
  {
    hide ParseItems, ParseFields, ParseString, ParseNumber, At, SkipSpace;
    if s[pos] == '[' {
      ItemsGiveArrays(s, pos + 1, [], f);
    } else if s[pos] == '{' {
      FieldsGiveObjects(s, pos + 1, [], f);
    } else if s[pos] != '"' {
      NumbersGiveNumbers(s, pos, f);
    }
  }

  lemma NumbersGiveNumbers(s: string, pos: nat, f: FloatText)
    requires pos < |s|
    ensures var r := ParseNumber(s, pos, f); r.Ok? ==> r.value.Int? || r.value.Float?
  {
  }

  lemma {:induction false} ItemsGiveArrays(s: string, pos: nat, acc: seq<Value>, f: FloatText)
    ensures var r := ParseItems(s, pos, acc, f); r.Ok? ==> r.value.Array?
    decreases Room(s, pos)
  {
    hide ParseValue;
    if pos < |s| && s[pos] != ']' {
      var r := ParseValue(s, pos, f);
      if r.Ok? { ItemsGiveArrays(s, SkipPast(s, r.pos, ','), acc + [r.value], f); }
    }
  }

  lemma {:induction false} FieldsGiveObjects(s: string, pos: nat, acc: seq<Entry>, f: FloatText)
    ensures var r := ParseFields(s, pos, acc, f); r.Ok? ==> r.value.Object?
    decreases Room(s, pos)
  {
    hide ParseValue, Insert;
    if pos < |s| && s[pos] != '}' {
      var k := ParseValue(s, pos, f);
      if k.Ok? && k.value.Str? {
        var v := ParseValue(s, SkipPast(s, k.pos, ':'), f);
        if v.Ok? {
          FieldsGiveObjects(s, SkipPast(s, v.pos, ','), Insert(acc, Entry(k.value.s, v.value)), f);
        }
      }
    }
  }

  // ---------- The language ----------

  /** A value is read within a text exactly when a clean document of that value stands there, behind
      white space, and ends where reading ends. */
  lemma LanguageIff(s: string, pos: nat, v: Value, p: nat, f: FloatText)
    requires p <= |s|
    ensures ParseValue(s, pos, f) == Ok(v, p) <==> exists ws, d :: Stands(s, pos, ws, d, f, v, p)
  {
    hide ParseValue, Stands;
    if ParseValue(s, pos, f) == Ok(v, p) {
      var ws, d := ValueIsDoc(s, pos, f);
    }
    forall ws, d | Stands(s, pos, ws, d, f, v, p)
      ensures ParseValue(s, pos, f) == Ok(v, p)
    {
      StandingIsRead(s, pos, ws, d, f, v, p);
    }
  }

  /** A document with white space before it. */
  lemma StandingIsRead(s: string, pos: nat, ws: string, d: Doc, f: FloatText, v: Value, p: nat)
    requires Stands(s, pos, ws, d, f, v, p)
    ensures ParseValue(s, pos, f) == Ok(v, p)
  {
    hide At, ParseValue, Clean, Print, ValueOf, Spaces, IsSpace;
    AtSplit(s, pos, ws, Print(d));
    FirstCharacter(d, f);
    AtFirst(s, pos + |ws|, Print(d));
    DocIsRead(s, pos + |ws|, d, f);
    SpaceBeforeValue(s, pos, ws, f);
  }
}
