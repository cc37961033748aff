/** JSON values, what the parser of code/config/json_util.h computes, and what the generator
    prints.  Positions are offsets into the whole text, as in the source. */
module JsonText {
  import opened Text

  const INT_MAX := 0x7FFF_FFFF

  datatype Value = Null | Bool(b: bool) | Int(i: int) | Float(r: real) | Str(s: string)
                 | Array(items: seq<Value>) | Object(entries: seq<Entry>)

  /** One pair of a `std::map`, whose pairs are kept in ascending key order. */
  datatype Entry = Entry(key: string, value: Value)

  /** `std::stod`, absent where it throws, and `std::to_string(double)`. */
  datatype FloatText = FloatText(read: string -> Option<real>, print_: real -> string)

  // ---------- Key order ----------

  predicate Less(a: string, b: string) {
    b != "" && (a == "" || a[0] < b[0] || (a[0] == b[0] && Less(a[1..], b[1..])))
  }

  /** Up to `k` the texts agree; there the first one ends or has the smaller character. */
  predicate SmallerAt(a: string, b: string, k: nat) {
    k <= |a| && k < |b| && a[..k] == b[..k] && (k == |a| || a[k] < b[k])
  }

  /** Dictionary order: a proper beginning, or the smaller character at the first difference. */
  lemma {:induction false} LessIsDictionaryOrder(a: string, b: string)
    ensures Less(a, b) <==> exists k: nat :: SmallerAt(a, b, k)
  {
    if a != "" && b != "" && a[0] == b[0] {
      var a1, b1 := a[1..], b[1..];
      forall k: nat
        ensures SmallerAt(a1, b1, k) <==> SmallerAt(a, b, k + 1)
      {
        SmallerBehind(a, b, k);
      }
      assert forall k: nat | SmallerAt(a, b, k) :: k > 0 && SmallerAt(a1, b1, k - 1);
      LessIsDictionaryOrder(a1, b1);
    } else if b != "" && (a == "" || a[0] < b[0]) {
      assert SmallerAt(a, b, 0);
    } else {
      forall k: nat
        ensures !SmallerAt(a, b, k)
      {
        assert 0 < k <= |a| && k < |b| ==> a[..k][0] == a[0] && b[..k][0] == b[0];
      }
    }
  }

  lemma SmallerBehind(a: string, b: string, k: nat)
    requires a != "" && b != "" && a[0] == b[0]
    ensures SmallerAt(a[1..], b[1..], k) <==> SmallerAt(a, b, k + 1)
  {
    if k < |a| && k < |b| {
      assert a[..k + 1] == [a[0]] + a[1..][..k] && b[..k + 1] == [b[0]] + b[1..][..k];
      assert a[..k + 1][1..] == a[1..][..k] && b[..k + 1][1..] == b[1..][..k];
    }
  }

  lemma {:induction false} LessIsTotal(a: string, b: string)
    ensures Less(a, b) || a == b || Less(b, a)
  {
    if a != "" && b != "" && a[0] == b[0] {
      LessIsTotal(a[1..], b[1..]);
      assert a == [a[0]] + a[1..] && b == [b[0]] + b[1..];
    }
  }

  lemma {:induction false} LessIsTransitive(a: string, b: string, c: string)
    requires Less(a, b) && Less(b, c)
    ensures Less(a, c)
  {
    if a != "" && a[0] == b[0] == c[0] { LessIsTransitive(a[1..], b[1..], c[1..]); }
  }

  lemma {:induction false} LessIsAsymmetric(a: string, b: string)
    requires Less(a, b)
    ensures !Less(b, a) && a != b
  {
    if a != "" && a[0] == b[0] { LessIsAsymmetric(a[1..], b[1..]); }
  }

  predicate Ascending(entries: seq<Entry>) {
    forall i, j | 0 <= i < j < |entries| :: Less(entries[i].key, entries[j].key)
  }

  /** `obj[key] = value` on a `std::map`. */
  function Insert(entries: seq<Entry>, e: Entry): seq<Entry> {
    if entries == [] then [e]
    else if entries[0].key == e.key then [e] + entries[1..]
    else if Less(e.key, entries[0].key) then [e] + entries
    else [entries[0]] + Insert(entries[1..], e)
  }

  /** The map that a sequence of entries stands for. */
  function AsMap(entries: seq<Entry>): (m: map<string, Value>)
    ensures m == map[] <==> entries == []
  {
    if entries == [] then map[]
    else
      var m := AsMap(entries[1..])[entries[0].key := entries[0].value];
      assert entries[0].key in m;
      m
  }

  lemma {:induction false} KeysOfMap(entries: seq<Entry>, key: string)
    ensures key in AsMap(entries) <==> exists i | 0 <= i < |entries| :: entries[i].key == key
  {
    if entries != [] {
      var tail := entries[1..];
      KeysOfMap(tail, key);
      if i :| 0 <= i < |tail| && tail[i].key == key { assert entries[i + 1].key == key; }
      if i :| 0 < i < |entries| && entries[i].key == key { assert tail[i - 1].key == key; }
    }
  }

  /** Storing a pair updates the map at its key and nowhere else. */
  lemma {:induction false} InsertIsUpdate(entries: seq<Entry>, e: Entry)
    ensures AsMap(Insert(entries, e)) == AsMap(entries)[e.key := e.value]
  {
    if entries != [] && entries[0].key != e.key && !Less(e.key, entries[0].key) {
      InsertIsUpdate(entries[1..], e);
    }
  }

  /** Keys in ascending order: there is one way to list a map. */
  lemma {:induction false} OneListing(a: seq<Entry>, b: seq<Entry>)
    requires Ascending(a) && Ascending(b) && AsMap(a) == AsMap(b)
    ensures a == b
    decreases |a|
  {
    if a != [] && b != [] {
      SameLeast(a, b);
      TailMap(a);
      TailMap(b);
      OneListing(a[1..], b[1..]);
      assert a == [a[0]] + a[1..] && b == [b[0]] + b[1..];
    }
  }

  lemma SameLeast(a: seq<Entry>, b: seq<Entry>)
    requires a != [] && b != [] && Ascending(a) && Ascending(b) && AsMap(a) == AsMap(b)
    ensures a[0] == b[0]
  {
    KeysOfMap(a, b[0].key);
    KeysOfMap(b, a[0].key);
    assert a[0].key in AsMap(a) && b[0].key in AsMap(b);
    var i :| 0 <= i < |a| && a[i].key == b[0].key;
    var j :| 0 <= j < |b| && b[j].key == a[0].key;
    if i > 0 && j > 0 { LessIsAsymmetric(a[0].key, b[0].key); }
    assert AsMap(a)[a[0].key] == a[0].value && AsMap(b)[b[0].key] == b[0].value;
  }

  lemma TailMap(a: seq<Entry>)
    requires a != [] && Ascending(a)
    ensures AsMap(a[1..]) == AsMap(a) - {a[0].key}
  {
    assert a[0].key !in AsMap(a[1..]) by {
      hide AsMap;
      KeysOfMap(a[1..], a[0].key);
      forall i | 0 <= i < |a[1..]|
        ensures a[1..][i].key != a[0].key
      {
        LessIsAsymmetric(a[0].key, a[i + 1].key);
      }
    }
    hide Ascending, Less;
  }

  ghost predicate AllAbove(key: string, entries: seq<Entry>) {
    forall i | 0 <= i < |entries| :: Less(key, entries[i].key)
  }

  lemma {:induction false} InsertKeepsAscending(entries: seq<Entry>, e: Entry)
    requires Ascending(entries)
    ensures Ascending(Insert(entries, e))
    ensures forall key :: AllAbove(key, entries) && Less(key, e.key) ==> AllAbove(key, Insert(entries, e))
  {
    if entries != [] {
      var head, tail := entries[0], entries[1..];
      LessIsTotal(head.key, e.key);
      if Less(e.key, head.key) {
        forall i | 0 <= i < |entries|
          ensures Less(e.key, entries[i].key)
        {
          if i > 0 { LessIsTransitive(e.key, head.key, entries[i].key); }
        }
      } else if head.key != e.key {
        InsertKeepsAscending(tail, e);
        assert AllAbove(head.key, tail);
        forall key | AllAbove(key, entries) && Less(key, e.key)
          ensures AllAbove(key, Insert(entries, e))
        {
          assert AllAbove(key, tail);
          assert Less(key, entries[0].key);
        }
      }
    }
  }

  lemma {:induction false} InsertLargestAppends(entries: seq<Entry>, e: Entry)
    requires forall i | 0 <= i < |entries| :: Less(entries[i].key, e.key)
    ensures Insert(entries, e) == entries + [e]
  {
    if entries != [] {
      LessIsAsymmetric(entries[0].key, e.key);
      InsertLargestAppends(entries[1..], e);
    }
  }

  // ---------- What the parser computes ----------

  /** A value and the position behind it, or no value: an empty optional at the top level, an
      exception inside a container. */
  datatype Parse = Ok(value: Value, pos: nat) | Fail

  predicate IsSpace(c: char) {
    c == ' ' || c == '\t' || c == '\n' || c == '\r' || c as int == 11 || c as int == 12
  }

  predicate NumberChar(c: char) { IsDigit(c) || c == 'e' || c == '.' }

  function SkipSpace(s: string, pos: nat): (p: nat)
    ensures pos <= p && (pos <= |s| ==> p <= |s|) && (p < |s| ==> !IsSpace(s[p]))
    ensures forall i | pos <= i < p :: i < |s| && IsSpace(s[i])
    decreases |s| - pos
  {
    if pos < |s| && IsSpace(s[pos]) then SkipSpace(s, pos + 1) else pos
  }

  function NumberEnd(s: string, pos: nat): (p: nat)
    requires pos <= |s|
    ensures pos <= p <= |s| && (p < |s| ==> !NumberChar(s[p]))
    ensures forall i | pos <= i < p :: NumberChar(s[i])
    decreases |s| - pos
  {
    if pos < |s| && NumberChar(s[pos]) then NumberEnd(s, pos + 1) else pos
  }

  function QuoteEnd(s: string, pos: nat): (p: nat)
    requires pos <= |s|
    ensures pos <= p <= |s| && (p < |s| ==> s[p] == '"')
    ensures forall i | pos <= i < p :: s[i] != '"'
    decreases |s| - pos
  {
    if pos < |s| && s[pos] != '"' then QuoteEnd(s, pos + 1) else pos
  }

  /** `text` stands in `s` at `pos`. */
  predicate At(s: string, pos: nat, text: string) {
    pos + |text| <= |s| && s[pos..pos + |text|] == text
  }

  /** `std::stoi` throws on an empty text and on overflow. */
  function ReadInt(number: string): Option<int>
    requires AllDigits(number)
  {
    if number == "" || DecimalValue(number) > INT_MAX then None else Some(DecimalValue(number))
  }

  predicate NumberText(t: string) { forall i | 0 <= i < |t| :: NumberChar(t[i]) }

  predicate FloatShaped(t: string) { '.' in t || 'e' in t }

  lemma OnlyDigits(t: string)
    requires NumberText(t) && !FloatShaped(t)
    ensures AllDigits(t)
  {
    forall i | 0 <= i < |t|
      ensures IsDigit(t[i])
    {
      assert NumberChar(t[i]) && t[i] in t;
    }
  }

  /** What a run of number characters stands for, if anything. */
  function NumberValue(t: string, f: FloatText): Option<Value>
    requires NumberText(t)
  {
    if FloatShaped(t) then
      match f.read(t) case Some(x) => Some(Float(x)) case None => None
    else
      OnlyDigits(t);
      match ReadInt(t) case Some(i) => Some(Int(i)) case None => None
  }

  function ParseNumber(s: string, pos: nat, f: FloatText): (r: Parse)
    requires pos < |s|
    ensures r.Ok? ==> r.pos > pos
  {
    var end := NumberEnd(s, pos);
    match NumberValue(s[pos..end], f)
    case Some(v) => assert end > pos by { assert s[pos..pos] == ""; } Ok(v, end)
    case None => Fail
  }

  /** From the opening quote.  A text that ends right there reads as an empty string; one that
      ends later never finds its closing quote. */
  function ParseString(s: string, pos: nat): (r: Parse)
    requires pos < |s|
    ensures r.Ok? ==> r.pos > pos
  {
    var start := pos + 1;
    if start == |s| then Ok(Str(""), start + 1)
    else
      var end := QuoteEnd(s, start);
      if end == |s| then Fail else Ok(Str(s[start..end]), end + 1)
  }

  function Room(s: string, pos: nat): nat { if pos < |s| then |s| - pos else 0 }

  /** Past optional space, an optional separator and more space. */
  function SkipPast(s: string, pos: nat, sep: char): (p: nat)
    ensures pos <= p
  {
    var a := SkipSpace(s, pos);
    SkipSpace(s, if a < |s| && s[a] == sep then a + 1 else a)
  }

  function ParseItems(s: string, pos: nat, acc: seq<Value>, f: FloatText): (r: Parse)
    ensures r.Ok? ==> r.pos > pos
    decreases Room(s, pos), 2
  {
    if pos < |s| && s[pos] != ']' then
      match ParseValue(s, pos, f)
      case Fail => Fail
      case Ok(v, p) => ParseItems(s, SkipPast(s, p, ','), acc + [v], f)
    else Ok(Array(acc), pos + 1)
  }

  function ParseFields(s: string, pos: nat, acc: seq<Entry>, f: FloatText): (r: Parse)
    ensures r.Ok? ==> r.pos > pos
    decreases Room(s, pos), 2
  {
    if pos < |s| && s[pos] != '}' then
      match ParseValue(s, pos, f)
      case Fail => Fail
      case Ok(k, p) =>
        if !k.Str? then Fail
        else
          match ParseValue(s, SkipPast(s, p, ':'), f)
          case Fail => Fail
          case Ok(v, q) => ParseFields(s, SkipPast(s, q, ','), Insert(acc, Entry(k.s, v)), f)
    else Ok(Object(acc), pos + 1)
  }

  function ParseValue(s: string, pos: nat, f: FloatText): (r: Parse)
    ensures r.Ok? ==> r.pos > pos
    decreases Room(s, pos), 1
  {
    var p := SkipSpace(s, pos);
    if p >= |s| then Fail
    else match s[p]
      case 'n' => if At(s, p, "null") then Ok(Null, p + 4) else Fail
      case 't' => if At(s, p, "true") then Ok(Bool(true), p + 4) else Fail
      case 'f' => if At(s, p, "false") then Ok(Bool(false), p + 5) else Fail
      case '"' => ParseString(s, p)
      case '[' => ParseItems(s, p + 1, [], f)
      case '{' => ParseFields(s, p + 1, [], f)
      case _ => ParseNumber(s, p, f)
  }

  // ---------- What the generator prints ----------

  function IntText(i: int): string { if i >= 0 then Decimal(i) else "-" + Decimal(-i) }

  /** Every integer is printed as a decimal number, the negative ones with a minus. */
  lemma IntTextIsSigned(i: int)
    ensures IntText(i) != "" && (IntText(i)[0] == '-' <==> i < 0)
    ensures i >= 0 ==> AllDigits(IntText(i)) && DecimalValue(IntText(i)) == i
    ensures i < 0 ==> AllDigits(IntText(i)[1..]) && DecimalValue(IntText(i)[1..]) == -i
  {
    DecimalRoundTrip(if i >= 0 then i else -i);
    if i < 0 { assert IntText(i)[1..] == Decimal(-i); }
    else { assert IsDigit(Decimal(i)[0]); }
  }

  function Quoted(s: string): string { "\"" + s + "\"" }

  function Generate(v: Value, f: FloatText): string
    decreases v, 1
  {
    match v
    case Null => "null"
    case Bool(b) => if b then "true" else "false"
    case Int(i) => IntText(i)
    case Float(r) => f.print_(r)
    case Str(s) => Quoted(s)
    case Array(items) => "[" + GenerateItems(items, f) + "]"
    case Object(entries) => "{" + GenerateEntries(entries, f) + "}"
  }

  function GenerateItems(items: seq<Value>, f: FloatText): string
    decreases items, 0
  {
    if items == [] then ""
    else Generate(items[0], f) + if |items| == 1 then "" else "," + GenerateItems(items[1..], f)
  }

  function GenerateEntries(entries: seq<Entry>, f: FloatText): string
    decreases entries, 0
  {
    if entries == [] then ""
    else
      Quoted(entries[0].key) + ":" + Generate(entries[0].value, f)
      + if |entries| == 1 then "" else "," + GenerateEntries(entries[1..], f)
  }
}
