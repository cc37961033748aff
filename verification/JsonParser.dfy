/** The JSON parser and generator as the code runs them: a cursor moved in loops, and strings
    appended to in loops. */
module JsonCode {
  import opened Text
  import opened JsonText

  /** A returned optional and the cursor say the same as the specification; where there is no
      value the cursor is not specified. */
  ghost predicate Agrees(r: Option<Value>, pos: nat, p: Parse) {
    match p
    case Ok(v, q) => r == Some(v) && pos == q
    case Fail => r == None
  }

  class JsonParser {
    const text: string
    var pos: nat

    constructor (text: string)
      ensures this.text == text && pos == 0
    {
      this.text := text;
      pos := 0;
    }

    method ParseWhitespace()
      modifies this
      ensures pos == SkipSpace(text, old(pos))
    {
      while pos < |text| && IsSpace(text[pos])
        invariant SkipSpace(text, pos) == SkipSpace(text, old(pos))
        decreases |text| - pos
      {
        pos := pos + 1;
      }
    }

    /** Takes one of the three words, if it is there. */
    method TakeWord(word: string, value: Value) returns (r: Option<Value>)
      modifies this
      ensures At(text, old(pos), word) ==> r == Some(value) && pos == old(pos) + |word|
      ensures !At(text, old(pos), word) ==> r == None && pos == old(pos)
    {
      if At(text, pos, word) {
        pos := pos + |word|;
        return Some(value);
      }
      return None;
    }

    method ScanNumber(f: FloatText) returns (r: Option<Value>)
      requires pos < |text|
      modifies this
      ensures Agrees(r, pos, ParseNumber(text, old(pos), f))
    {
      var endPos := pos;
      while endPos < |text| && NumberChar(text[endPos])
        invariant pos <= endPos <= |text| && NumberEnd(text, endPos) == NumberEnd(text, pos)
        decreases |text| - endPos
      {
        endPos := endPos + 1;
      }
      var number := text[pos..endPos];
      pos := endPos;
      if '.' in number || 'e' in number {
        var x := f.read(number);
        r := if x.Some? then Some(Float(x.value)) else None;
      } else {
        OnlyDigits(number);
        var i := ReadInt(number);
        r := if i.Some? then Some(Int(i.value)) else None;
      }
    }

    /** The closing quote is looked for only when the text goes on; running off the end of the
        text counts as no value. */
    method ScanString() returns (r: Option<Value>)
      requires pos < |text|
      modifies this
      ensures Agrees(r, pos, ParseString(text, old(pos)))
    {
      pos := pos + 1;
      var endPos := pos;
      if pos < |text| {
        while endPos < |text| && text[endPos] != '"'
          invariant pos == old(pos) + 1 && pos <= endPos <= |text| && QuoteEnd(text, endPos) == QuoteEnd(text, pos)
          decreases |text| - endPos
        {
          endPos := endPos + 1;
        }
        if endPos == |text| {
          return None;
        }
      }
      var str := text[pos..endPos];
      assert pos == |text| ==> str == "";
      pos := endPos + 1;
      return Some(Str(str));
    }

    method TakeSeparator(sep: char)
      modifies this
      ensures pos == SkipPast(text, old(pos), sep)
    {
      ParseWhitespace();
      if pos < |text| && text[pos] == sep {
        pos := pos + 1;
      }
      ParseWhitespace();
    }

    method ScanArray(f: FloatText) returns (r: Option<Value>)
      requires pos < |text|
      modifies this
      ensures Agrees(r, pos, ParseItems(text, old(pos) + 1, [], f))
      decreases Room(text, pos), 0
    {
      pos := pos + 1;
      var arr: seq<Value> := [];
      while pos < |text| && text[pos] != ']'
        invariant pos > old(pos)
        invariant ParseItems(text, pos, arr, f) == ParseItems(text, old(pos) + 1, [], f)
        decreases Room(text, pos)
      {
        var value := ScanValue(f);
        if value.None? { return None; }
        arr := arr + [value.value];
        TakeSeparator(',');
      }
      pos := pos + 1;
      return Some(Array(arr));
    }

    method ScanObject(f: FloatText) returns (r: Option<Value>)
      requires pos < |text|
      modifies this
      ensures Agrees(r, pos, ParseFields(text, old(pos) + 1, [], f))
      decreases Room(text, pos), 0
    {
      pos := pos + 1;
      var obj: seq<Entry> := [];
      while pos < |text| && text[pos] != '}'
        invariant pos > old(pos)
        invariant ParseFields(text, pos, obj, f) == ParseFields(text, old(pos) + 1, [], f)
        decreases Room(text, pos)
      {
        var key := ScanValue(f);
        if key.None? || !key.value.Str? { return None; }
        TakeSeparator(':');
        var val := ScanValue(f);
        if val.None? { return None; }
        obj := Insert(obj, Entry(key.value.s, val.value));
        TakeSeparator(',');
      }
      pos := pos + 1;
      return Some(Object(obj));
    }

    method ScanValue(f: FloatText) returns (r: Option<Value>)
      modifies this
      ensures Agrees(r, pos, ParseValue(text, old(pos), f))
      decreases Room(text, pos), 1
    {
      ParseWhitespace();
      if pos >= |text| { return None; }
      match text[pos] {
        case 'n' => r := TakeWord("null", Null);
        case 't' => r := TakeWord("true", Bool(true));
        case 'f' => r := TakeWord("false", Bool(false));
        case '"' => r := ScanString();
        case '[' => r := ScanArray(f);
        case '{' => r := ScanObject(f);
        case _ => r := ScanNumber(f);
      }
    }
  }

  /** `parser(json_str)`. */
  method Parser(text: string, f: FloatText) returns (r: Option<Value>)
    ensures var p := ParseValue(text, 0, f); r == if p.Ok? then Some(p.value) else None
  {
    var p := new JsonParser(text);
    p.ParseWhitespace();
    ghost var start := p.pos;
    SkipTwice(text, 0, f);
    r := p.ScanValue(f);
  }

  lemma SkipTwice(s: string, pos: nat, f: FloatText)
    ensures ParseValue(s, SkipSpace(s, pos), f) == ParseValue(s, pos, f)
  {
    var p := SkipSpace(s, pos);
    assert SkipSpace(s, p) == p;
  }

  // ---------- The generator ----------

  /** Every element followed by a comma, as the loops leave the text. */
  ghost function WithCommas(items: seq<Value>, f: FloatText): string {
    if items == [] then "" else WithCommas(items[..|items| - 1], f) + Generate(items[|items| - 1], f) + ","
  }

  ghost function EntriesWithCommas(entries: seq<Entry>, f: FloatText): string {
    if entries == [] then ""
    else
      var e := entries[|entries| - 1];
      EntriesWithCommas(entries[..|entries| - 1], f) + (Quoted(e.key) + ":" + Generate(e.value, f)) + ","
  }

  method GenerateNode(v: Value, f: FloatText) returns (text: string)
    ensures text == Generate(v, f)
    decreases v, 1
  {
    match v {
      case Null => text := "null";
      case Bool(b) => text := if b then "true" else "false";
      case Int(i) => text := IntText(i);
      case Float(r) => text := f.print_(r);
      case Str(s) => text := Quoted(s);
      case Array(items) => text := GenerateArray(items, f);
      case Object(entries) => text := GenerateObject(entries, f);
    }
  }

  method GenerateArray(items: seq<Value>, f: FloatText) returns (text: string)
    ensures text == "[" + GenerateItems(items, f) + "]"
    decreases items, 0
  {
    text := "[";
    for k := 0 to |items|
      invariant text == "[" + WithCommas(items[..k], f)
    {
      var node := GenerateNode(items[k], f);
      text := text + node;
      text := text + ",";
      assert items[..k + 1][..k] == items[..k];
    }
    assert items[..|items|] == items;
    CommasJoin(items, f);
    if items != [] { text := text[..|text| - 1]; }
    text := text + "]";
  }

  method GenerateObject(entries: seq<Entry>, f: FloatText) returns (text: string)
    ensures text == "{" + GenerateEntries(entries, f) + "}"
    decreases entries, 0
  {
    text := "{";
    for k := 0 to |entries|
      invariant text == "{" + EntriesWithCommas(entries[..k], f)
    {
      var node := GenerateNode(entries[k].value, f);
      text := text + Quoted(entries[k].key);
      text := text + ":";
      text := text + node;
      text := text + ",";
      assert entries[..k + 1][..k] == entries[..k];
    }
    assert entries[..|entries|] == entries;
    EntryCommasJoin(entries, f);
    if entries != [] { text := text[..|text| - 1]; }
    text := text + "}";
  }

  /** Dropping the last comma leaves the elements joined by commas. */
  lemma {:induction false} CommasJoin(items: seq<Value>, f: FloatText)
    ensures items != [] ==> WithCommas(items, f) == GenerateItems(items, f) + ","
    ensures items == [] ==> WithCommas(items, f) == GenerateItems(items, f)
    decreases |items|
  {
    if |items| > 1 {
      var k := |items| - 1;
      CommasJoin(items[..k], f);
      ItemsJoin(items[..k], items[k], f);
      assert items[..k] + [items[k]] == items;
    }
  }

  lemma {:induction false} ItemsJoin(items: seq<Value>, v: Value, f: FloatText)
    requires items != []
    ensures GenerateItems(items + [v], f) == GenerateItems(items, f) + "," + Generate(v, f)
    decreases |items|
  {
    var all := items + [v];
    assert all[1..] == items[1..] + [v];
    if |items| > 1 { ItemsJoin(items[1..], v, f); }
  }

  lemma {:induction false} EntryCommasJoin(entries: seq<Entry>, f: FloatText)
    ensures entries != [] ==> EntriesWithCommas(entries, f) == GenerateEntries(entries, f) + ","
    ensures entries == [] ==> EntriesWithCommas(entries, f) == GenerateEntries(entries, f)
    decreases |entries|
  {
    if |entries| > 1 {
      var k := |entries| - 1;
      EntryCommasJoin(entries[..k], f);
      EntriesJoin(entries[..k], entries[k], f);
      assert entries[..k] + [entries[k]] == entries;
    }
  }

  lemma {:induction false} EntriesJoin(entries: seq<Entry>, e: Entry, f: FloatText)
    requires entries != []
    ensures GenerateEntries(entries + [e], f)
         == GenerateEntries(entries, f) + "," + (Quoted(e.key) + ":" + Generate(e.value, f))
    decreases |entries|
  {
    var all := entries + [e];
    assert all[1..] == entries[1..] + [e];
    if |entries| > 1 { EntriesJoin(entries[1..], e, f); }
  }

  /** One more element at the end of an array is printed before the bracket, behind a comma if others
      precede it. */
  lemma OneMoreItem(items: seq<Value>, v: Value, f: FloatText)
    ensures var before := Generate(Array(items), f);
            Generate(Array(items + [v]), f)
            == (if items == [] then "[" else before[..|before| - 1] + ",") + Generate(v, f) + "]"
  {
    hide GenerateItems;
    if items == [] {
      assert [] + [v] == [v];
      OneItem(v, f);
    } else {
      ItemsJoin(items, v, f);
      Closed("[", GenerateItems(items, f), "]", Generate(v, f));
    }
  }

  lemma OneItem(v: Value, f: FloatText)
    ensures GenerateItems([v], f) == Generate(v, f)
  {
  }

  /** One more pair at the end of an object is printed before the brace: its name between quotes as it
      is, a colon, and its value. */
  lemma OneMoreEntry(entries: seq<Entry>, key: string, v: Value, f: FloatText)
    ensures var before := Generate(Object(entries), f);
            var pair := ("\"" + key + "\"") + ":" + Generate(v, f);
            Generate(Object(entries + [Entry(key, v)]), f)
            == (if entries == [] then "{" else before[..|before| - 1] + ",") + pair + "}"
  {
    hide GenerateEntries;
    if entries == [] {
      assert [] + [Entry(key, v)] == [Entry(key, v)];
      OneEntry(key, v, f);
    } else {
      EntriesJoin(entries, Entry(key, v), f);
      Closed("{", GenerateEntries(entries, f), "}", ("\"" + key + "\"") + ":" + Generate(v, f));
    }
  }

  lemma OneEntry(key: string, v: Value, f: FloatText)
    ensures GenerateEntries([Entry(key, v)], f) == ("\"" + key + "\"") + ":" + Generate(v, f)
  {
  }

  lemma Closed(open: string, text: string, close: string, more: string)
    requires |close| == 1
    ensures var all := open + text + close;
            open + (text + "," + more) + close == all[..|all| - 1] + "," + more + close
  {
    var all := open + text + close;
    assert all[..|all| - 1] == open + text;
  }
}
