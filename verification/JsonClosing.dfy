/** Texts the JSON parser accepts although they end too early: exactly those that some missing
    closing brackets, and a closing quote where the text ends in an opening one, would complete. */
module JsonClosing {
  import opened Text
  import opened JsonText

  predicate Bracket(c: char) { c == ']' || c == '}' }

  /** `c` may complete `s`: brackets, perhaps behind a quote if `s` ends in one. */
  predicate Completes(s: string, c: string) {
    && c != "" && (forall i | 0 < i < |c| :: Bracket(c[i]))
    && (Bracket(c[0]) || (c[0] == '"' && s != "" && s[|s| - 1] == '"'))
  }

  /** What is read within `n` characters, or within `k` more, is read the same either way. */
  predicate Consistent(r: Parse, r1: Parse, n: nat, k: nat) {
    (r.Ok? && r.pos <= n ==> r1 == r) && (r1.Ok? && r1.pos <= n + k ==> r == r1)
  }

  // ---------- Scanning a completed text ----------

  lemma CompletionChars(s: string, c: string, p: nat)
    requires Completes(s, c) && p < |s + c|
    ensures p < |s| ==> (s + c)[p] == s[p]
    ensures p >= |s| ==> Bracket((s + c)[p]) || ((s + c)[p] == '"' && p == |s| && s != "" && s[p - 1] == '"')
  {
    if p >= |s| { assert (s + c)[p] == c[p - |s|]; }
  }

  lemma {:induction false} SkipsTheSame(s: string, c: string, p: nat)
    requires Completes(s, c)
    ensures SkipSpace(s + c, p) == SkipSpace(s, p)
    decreases |s| - p
  {
    if p < |s + c| { CompletionChars(s, c, p); }
    if p < |s| { SkipsTheSame(s, c, p + 1); }
  }

  lemma SkipsPastTheSame(s: string, c: string, p: nat, sep: char)
    requires Completes(s, c) && (sep == ',' || sep == ':')
    ensures SkipPast(s + c, p, sep) == SkipPast(s, p, sep)
  {
    hide SkipSpace, Completes;
    SkipsTheSame(s, c, p);
    var a := SkipSpace(s, p);
    if a < |s + c| { CompletionChars(s, c, a); }
    SkipsTheSame(s, c, a);
    SkipsTheSame(s, c, a + 1);
  }

  lemma {:induction false} NumberEndsTheSame(s: string, c: string, p: nat)
    requires Completes(s, c) && p <= |s|
    ensures NumberEnd(s + c, p) == NumberEnd(s, p)
    decreases |s| - p
  {
    CompletionChars(s, c, p);
    if p < |s| { NumberEndsTheSame(s, c, p + 1); }
  }

  lemma NumberIsTheSame(s: string, c: string, p: nat, f: FloatText)
    requires Completes(s, c) && p < |s|
    ensures ParseNumber(s + c, p, f) == ParseNumber(s, p, f)
  {
    hide Completes, NumberEnd;
    NumberEndsTheSame(s, c, p);
    var end := NumberEnd(s, p);
    assert (s + c)[p..end] == s[p..end];
  }

  /** No value starts with a bracket. */
  lemma NothingAtBracket(s: string, p: nat, f: FloatText)
    requires p < |s| && Bracket(s[p])
    ensures ParseValue(s, p, f) == Fail
  {
    assert s[p..NumberEnd(s, p)] == "";
    assert ParseNumber(s, p, f) == Fail;
    assert SkipSpace(s, p) == p;
    hide ParseString, ParseItems, ParseFields, ParseNumber;
  }

  lemma WordIsTheSame(s: string, c: string, p: nat, word: string)
    requires Completes(s, c) && p <= |s| && forall i | 0 <= i < |word| :: !Bracket(word[i]) && word[i] != '"'
    ensures At(s + c, p, word) <==> At(s, p, word)
  {
    if p + |word| <= |s| {
      assert (s + c)[p..p + |word|] == s[p..p + |word|];
    } else if p + |word| <= |s + c| {
      CompletionChars(s, c, |s|);
      assert (s + c)[p..p + |word|][|s| - p] == (s + c)[|s|] != word[|s| - p];
    }
  }

  lemma {:induction false} QuoteInText(s: string, c: string, p: nat)
    requires p <= |s| && QuoteEnd(s, p) < |s|
    ensures QuoteEnd(s + c, p) == QuoteEnd(s, p)
    decreases |s| - p
  {
    if s[p] != '"' { QuoteInText(s, c, p + 1); }
  }

  lemma {:induction false} NoQuoteAnywhere(s: string, p: nat)
    requires p <= |s| && forall i | p <= i < |s| :: s[i] != '"'
    ensures QuoteEnd(s, p) == |s|
    decreases |s| - p
  {
    if p < |s| { NoQuoteAnywhere(s, p + 1); }
  }

  lemma StringIsConsistent(s: string, c: string, p: nat)
    requires Completes(s, c) && p < |s|
    ensures Consistent(ParseString(s, p), ParseString(s + c, p), |s|, |c|)
  {
    var t, start := s + c, p + 1;
    CompletionChars(s, c, |s|);
    if QuoteEnd(s, start) < |s| {
      QuoteInText(s, c, start);
      assert t[start..QuoteEnd(s, start)] == s[start..QuoteEnd(s, start)];
    } else if start == |s| && c[0] == '"' {
      assert QuoteEnd(t, start) == start;
    } else {
      forall i | start <= i < |t|
        ensures t[i] != '"'
      {
        CompletionChars(s, c, i);
      }
      NoQuoteAnywhere(t, start);
    }
  }

  // ---------- Adding what may complete a text ----------

  /** At the end of the text, or behind it, nothing can be read that ends within the completion. */
  lemma NothingBehind(s: string, c: string, p: nat, f: FloatText)
    requires Completes(s, c) && p >= |s|
    ensures ParseValue(s, p, f) == Fail
    ensures var r1 := ParseValue(s + c, p, f); r1.Fail? || r1.pos > |s| + |c|
  {
    hide Completes, ParseItems, ParseFields, ParseNumber;
    if p < |s + c| {
      CompletionChars(s, c, p);
      if Bracket((s + c)[p]) {
        NothingAtBracket(s + c, p, f);
      } else {
        assert SkipSpace(s + c, p) == p;
        StringBehind(s, c);
      }
    }
  }

  lemma StringBehind(s: string, c: string)
    requires Completes(s, c)
    ensures var r1 := ParseString(s + c, |s|); r1.Fail? || r1.pos > |s| + |c|
  {
    var t := s + c;
    forall i | |s| < i < |t|
      ensures t[i] != '"'
    {
      CompletionChars(s, c, i);
    }
    NoQuoteAnywhere(t, |s| + 1);
  }

  lemma {:induction false} ValueIsConsistent(s: string, c: string, pos: nat, f: FloatText)
    requires Completes(s, c)
    ensures Consistent(ParseValue(s, pos, f), ParseValue(s + c, pos, f), |s|, |c|)
    decreases Room(s, pos), 1
  {
    hide Completes, SkipSpace, ParseItems, ParseFields, ParseNumber, ParseString, At;
    SkipsTheSame(s, c, pos);
    var p := SkipSpace(s, pos);
    if p >= |s| {
      SkipsTheSame(s, c, p);
      ValueAfterSpace(s, pos, f);
      ValueAfterSpace(s + c, pos, f);
      NothingBehind(s, c, p, f);
    } else {
      CompletionChars(s, c, p);
      match s[p]
      case 'n' => WordIsTheSame(s, c, p, "null");
      case 't' => WordIsTheSame(s, c, p, "true");
      case 'f' => WordIsTheSame(s, c, p, "false");
      case '"' => StringIsConsistent(s, c, p);
      case '[' => ItemsAreConsistent(s, c, p + 1, [], f);
      case '{' => FieldsAreConsistent(s, c, p + 1, [], f);
      case _ => NumberIsTheSame(s, c, p, f);
    }
  }

  lemma ValueAfterSpace(s: string, pos: nat, f: FloatText)
    ensures ParseValue(s, pos, f) == ParseValue(s, SkipSpace(s, pos), f)
  {
    assert SkipSpace(s, SkipSpace(s, pos)) == SkipSpace(s, pos);
    hide SkipSpace, At, ParseString, ParseItems, ParseFields, ParseNumber;
  }

  lemma {:induction false} ItemsAreConsistent(s: string, c: string, pos: nat, acc: seq<Value>, f: FloatText)
    requires Completes(s, c)
    ensures Consistent(ParseItems(s, pos, acc, f), ParseItems(s + c, pos, acc, f), |s|, |c|)
    decreases Room(s, pos), 2
  {
    hide Completes, ParseValue, SkipPast;
    if pos < |s + c| { CompletionChars(s, c, pos); }
    if pos >= |s| {
      NothingBehind(s, c, pos, f);
    } else if s[pos] != ']' {
      ValueIsConsistent(s, c, pos, f);
      var r := ParseValue(s, pos, f);
      if r.Ok? {
        SkipsPastTheSame(s, c, r.pos, ',');
        ItemsAreConsistent(s, c, SkipPast(s, r.pos, ','), acc + [r.value], f);
      }
    }
  }

  lemma {:induction false} FieldsAreConsistent(s: string, c: string, pos: nat, acc: seq<Entry>, f: FloatText)
    requires Completes(s, c)
    ensures Consistent(ParseFields(s, pos, acc, f), ParseFields(s + c, pos, acc, f), |s|, |c|)
    decreases Room(s, pos), 2
  {
    hide Completes, ParseValue, SkipPast, Insert;
    if pos < |s + c| { CompletionChars(s, c, pos); }
    if pos >= |s| {
      NothingBehind(s, c, pos, f);
    } else if s[pos] != '}' {
      ValueIsConsistent(s, c, pos, f);
      var k := ParseValue(s, pos, f);
      if k.Ok? && k.value.Str? {
        SkipsPastTheSame(s, c, k.pos, ':');
        var q := SkipPast(s, k.pos, ':');
        ValueIsConsistent(s, c, q, f);
        var v := ParseValue(s, q, f);
        if v.Ok? {
          SkipsPastTheSame(s, c, v.pos, ',');
          FieldsAreConsistent(s, c, SkipPast(s, v.pos, ','), Insert(acc, Entry(k.value.s, v.value)), f);
        }
      }
    }
  }

  // ---------- Finding what completes a text ----------

  /** The value at `pos`, read past the end of the text, is read to the end of a completed one. */
  lemma {:induction false} ValueIsCompleted(s: string, pos: nat, f: FloatText) returns (c: string)
    requires var r := ParseValue(s, pos, f); r.Ok? && r.pos > |s|
    ensures Completes(s, c) && |s| + |c| == ParseValue(s, pos, f).pos
    ensures ParseValue(s + c, pos, f) == ParseValue(s, pos, f)
    decreases Room(s, pos), 1
  {
    hide Completes, SkipSpace, ParseItems, ParseFields, ParseNumber, ParseString;
    OnlyTheseRunOver(s, pos, f);
    var p := SkipSpace(s, pos);
    if s[p] == '"' {
      c := StringIsCompleted(s, p);
    } else if s[p] == '[' {
      c := ItemsAreCompleted(s, p + 1, [], f);
    } else {
      c := FieldsAreCompleted(s, p + 1, [], f);
    }
    SkipsTheSame(s, c, pos);
    CompletionChars(s, c, p);
  }

  lemma OnlyTheseRunOver(s: string, pos: nat, f: FloatText)
    requires var r := ParseValue(s, pos, f); r.Ok? && r.pos > |s|
    ensures var p := SkipSpace(s, pos); p < |s| && (s[p] == '"' || s[p] == '[' || s[p] == '{')
  {
    hide SkipSpace, ParseItems, ParseFields, ParseString;
  }

  lemma StringIsCompleted(s: string, p: nat) returns (c: string)
    requires p < |s| && s[p] == '"' && ParseString(s, p).Ok? && ParseString(s, p).pos > |s|
    ensures Completes(s, c) && |s| + |c| == ParseString(s, p).pos && ParseString(s + c, p) == ParseString(s, p)
  {
    c := "\"";
    assert p + 1 == |s| && (s + c)[p + 1] == '"';
    assert QuoteEnd(s + c, p + 1) == p + 1 && (s + c)[p + 1..p + 1] == "";
  }

  /** One more bracket changes nothing that a completion already made whole. */
  lemma OneMoreBracket(s: string, c: string, pos: nat, close: char, f: FloatText)
    requires Completes(s, c) && Bracket(close) && ParseValue(s + c, pos, f) == ParseValue(s, pos, f)
    requires ParseValue(s, pos, f).Ok? && ParseValue(s, pos, f).pos == |s| + |c|
    ensures Completes(s, c + [close]) && ParseValue(s + (c + [close]), pos, f) == ParseValue(s, pos, f)
    ensures |s + (c + [close])| == |s| + |c| + 1 && (s + (c + [close]))[|s| + |c|] == close
  {
    hide ParseValue;
    assert (s + c) + [close] == s + (c + [close]);
    ValueIsConsistent(s + c, [close], pos, f);
  }

  lemma BracketCompletes(s: string, close: char)
    requires Bracket(close)
    ensures Completes(s, [close]) && (s + [close])[|s|] == close
  {
  }

  lemma SkipsWithin(s: string, p: nat, sep: char)
    ensures if p <= |s| then SkipPast(s, p, sep) <= |s| else SkipPast(s, p, sep) == p
  {
  }

  /** Behind a key that ends past the text no value can be read. */
  lemma NoKeyRunsOver(s: string, p: nat, f: FloatText)
    ensures p > |s| ==> ParseValue(s, SkipPast(s, p, ':'), f) == Fail
  {
  }

  lemma {:induction false} ItemsAreCompleted(s: string, pos: nat, acc: seq<Value>, f: FloatText) returns (c: string)
    requires pos <= |s|
    requires var r := ParseItems(s, pos, acc, f); r.Ok? && r.pos > |s|
    ensures Completes(s, c) && |s| + |c| == ParseItems(s, pos, acc, f).pos
    ensures ParseItems(s + c, pos, acc, f) == ParseItems(s, pos, acc, f)
    decreases Room(s, pos), 2
  {
    hide ParseValue, SkipPast, Completes;
    if pos == |s| {
      c := "]";
      BracketCompletes(s, ']');
      return;
    }
    var r := ParseValue(s, pos, f);
    SkipsWithin(s, r.pos, ',');
    if r.pos > |s| {
      var inner := ValueIsCompleted(s, pos, f);
      OneMoreBracket(s, inner, pos, ']', f);
      c := inner + "]";
    } else {
      c := ItemsAreCompleted(s, SkipPast(s, r.pos, ','), acc + [r.value], f);
      ValueIsConsistent(s, c, pos, f);
    }
    CompletionChars(s, c, pos);
    SkipsPastTheSame(s, c, r.pos, ',');
  }

  lemma {:induction false} FieldsAreCompleted(s: string, pos: nat, acc: seq<Entry>, f: FloatText) returns (c: string)
    requires pos <= |s|
    requires var r := ParseFields(s, pos, acc, f); r.Ok? && r.pos > |s|
    ensures Completes(s, c) && |s| + |c| == ParseFields(s, pos, acc, f).pos
    ensures ParseFields(s + c, pos, acc, f) == ParseFields(s, pos, acc, f)
    decreases Room(s, pos), 2
  {
    hide ParseValue, SkipPast, Completes, Insert;
    if pos == |s| {
      c := "}";
      BracketCompletes(s, '}');
      return;
    }
    var k := ParseValue(s, pos, f);
    var q := SkipPast(s, k.pos, ':');
    var v := ParseValue(s, q, f);
    NoKeyRunsOver(s, k.pos, f);
    SkipsWithin(s, v.pos, ',');
    if v.pos > |s| {
      var inner := ValueIsCompleted(s, q, f);
      OneMoreBracket(s, inner, q, '}', f);
      c := inner + "}";
    } else {
      c := FieldsAreCompleted(s, SkipPast(s, v.pos, ','), Insert(acc, Entry(k.value.s, v.value)), f);
      ValueIsConsistent(s, c, q, f);
    }
    ValueIsConsistent(s, c, pos, f);
    CompletionChars(s, c, pos);
    SkipsPastTheSame(s, c, k.pos, ':');
    SkipsPastTheSame(s, c, v.pos, ',');
  }

  // ---------- What is accepted past the end ----------

  /** A value is read `k` characters past the end of a text exactly when `k` characters that may
      complete the text make it a whole one of that value. */
  lemma PastEndIff(s: string, pos: nat, v: Value, k: nat, f: FloatText)
    requires k > 0
    ensures ParseValue(s, pos, f) == Ok(v, |s| + k)
            <==> exists c :: Completes(s, c) && |c| == k && ParseValue(s + c, pos, f) == Ok(v, |s| + k)
  {
    hide ParseValue, Completes;
    if ParseValue(s, pos, f) == Ok(v, |s| + k) {
      var c := ValueIsCompleted(s, pos, f);
    }
    forall c | Completes(s, c) && |c| == k && ParseValue(s + c, pos, f) == Ok(v, |s| + k)
      ensures ParseValue(s, pos, f) == Ok(v, |s| + k)
    {
      ValueIsConsistent(s, c, pos, f);
    }
  }

  /** A string is accepted exactly when its quote is closed, or is the last character. */
  lemma StringAcceptedIff(s: string, p: nat, f: FloatText)
    requires p < |s| && s[p] == '"'
    ensures ParseValue(s, p, f).Ok? <==> p + 1 == |s| || '"' in s[p + 1..]
  {
    if QuoteEnd(s, p + 1) < |s| {
      assert s[p + 1..][QuoteEnd(s, p + 1) - (p + 1)] == '"';
    }
    hide ParseItems, ParseFields, ParseNumber;
  }

  /** The shortest such texts. */
  lemma OpeningCharactersAreAccepted(f: FloatText)
    ensures ParseValue("\"", 0, f) == Ok(Str(""), 2)
    ensures ParseValue("[", 0, f) == Ok(Array([]), 2) && ParseValue("{", 0, f) == Ok(Object([]), 2)
  {
  }
}
