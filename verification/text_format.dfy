/** The text conventions the annotation files rely on: `std::ostream << int`,
    `boost::lexical_cast<int>`, `std::getline`, `boost::split`, `boost::trim_right`
    and the removal of spaces, together with the facts that make printed values
    read back. */
module TextFormat {
  import opened Wrappers
  import opened Numeric

  predicate IsDigit(c: char) {
    '0' <= c <= '9'
  }

  predicate AllDigits(s: string) {
    forall i :: 0 <= i < |s| ==> IsDigit(s[i])
  }

  /** The characters `std::isspace` accepts in the "C" locale. */
  predicate IsSpace(c: char) {
    c == ' ' || '\t' <= c <= '\r'
  }

  function DigitChar(d: nat): (c: char)
    requires d < 10
    ensures IsDigit(c)
  {
    ('0' as int + d) as char
  }

  /** The number a string of decimal digits denotes (leading zeros allowed). */
  function DigitsValue(s: string): nat
    requires AllDigits(s)
  {
    if s == [] then 0 else DigitsValue(s[..|s| - 1]) * 10 + (s[|s| - 1] as int - '0' as int)
  }

  /** Decimal notation of a natural number, without leading zeros. */
  function NatToString(n: nat): (s: string)
    ensures |s| >= 1 && AllDigits(s)
  {
    if n < 10 then [DigitChar(n)] else NatToString(n / 10) + [DigitChar(n % 10)]
  }

  lemma {:induction false} NatToStringValue(n: nat)
    ensures DigitsValue(NatToString(n)) == n
  {
    if n >= 10 {
      var s := NatToString(n);
      assert s[..|s| - 1] == NatToString(n / 10);
      NatToStringValue(n / 10);
    }
  }

  /** `std::ostream << int`: an optional minus sign, then the decimal digits. */
  function IntToString(i: int): (s: string)
    ensures |s| >= 1 && IsDigit(s[|s| - 1])
    ensures ' ' !in s && ',' !in s && '\n' !in s
    ensures i >= 0 <==> IsDigit(s[0])
  {
    var s := if i < 0 then "-" + NatToString(-i) else NatToString(i);
    assert forall c :: c in s && c != '-' ==> IsDigit(c);
    s
  }

  /** `boost::lexical_cast<int>`: one optional sign, at least one digit and nothing
      else; a value outside the range of `int` is refused (`None` stands for the
      `bad_lexical_cast` exception). */
  function ParseInt(s: string): (r: Option<int>)
    ensures r.Some? ==> InInt32(r.value)
    ensures s == [] ==> r == None
  {
    if s == [] then None
    else
      var neg := s[0] == '-';
      var digits := if s[0] == '-' || s[0] == '+' then s[1..] else s;
      if digits == [] || !AllDigits(digits) then None
      else
        var v: int := if neg then 0 - DigitsValue(digits) as int else DigitsValue(digits) as int;
        if InInt32(v) then Some(v) else None
  }

  /** Printing an `int` and casting it back gives the same `int`. */
  lemma ParseIntToString(i: int)
    requires InInt32(i)
    ensures ParseInt(IntToString(i)) == Some(i)
  {
    var s := IntToString(i);
    if i < 0 {
      var d := NatToString(-i);
      assert s == "-" + d;
      NatToStringValue(-i);
      ParseNegativeDigits(d);
      assert ParseInt(s) == ParseInt("-" + d);
    } else {
      var d := NatToString(i);
      assert s == d;
      NatToStringValue(i);
      ParseDigits(d);
      assert ParseInt(s) == ParseInt(d);
    }
  }

  lemma ParseDigits(d: string)
    requires d != [] && AllDigits(d) && InInt32(DigitsValue(d))
    ensures ParseInt(d) == Some(DigitsValue(d) as int)
  {
    assert IsDigit(d[0]);
  }

  lemma ParseNegativeDigits(d: string)
    requires d != [] && AllDigits(d) && InInt32(0 - DigitsValue(d))
    ensures ParseInt("-" + d) == Some(0 - DigitsValue(d))
  {
    var s := "-" + d;
    assert s[0] == '-' && s[1..] == d;
  }

  /** First position of `c` in `s`. */
  function IndexOf(s: string, c: char): (k: nat)
    requires c in s
    ensures k < |s| && s[k] == c && c !in s[..k]
  {
    if s[0] == c then 0 else 1 + IndexOf(s[1..], c)
  }

  lemma IndexOfAfter(a: string, c: char, b: string)
    requires c !in a
    ensures c in a + [c] + b && IndexOf(a + [c] + b, c) == |a|
  {
    var s := a + [c] + b;
    assert s[|a|] == c;
    assert forall j :: 0 <= j < |a| ==> s[j] == a[j];
    var k := IndexOf(s, c);
    assert k <= |a| ==> s[..k] == a[..k];
  }

  /** `boost::split(tokens, s, is_any_of({sep}))`: the pieces between separators,
      empty pieces kept, so the empty string gives one empty token. */
  function Split(s: string, sep: char): (r: seq<string>)
    ensures |r| >= 1
    ensures forall i :: 0 <= i < |r| ==> sep !in r[i]
    decreases |s|
  {
    if sep !in s then [s] else
      var k := IndexOf(s, sep);
      [s[..k]] + Split(s[k + 1..], sep)
  }

  /** Tokens joined with `sep` between neighbours. */
  function Join(tokens: seq<string>, sep: string): string
    requires |tokens| >= 1
  {
    if |tokens| == 1 then tokens[0] else tokens[0] + sep + Join(tokens[1..], sep)
  }

  /** The joined text ends with the last token. */
  lemma {:induction false} JoinLast(tokens: seq<string>, sep: string)
    requires |tokens| >= 1 && tokens[|tokens| - 1] != []
    ensures |Join(tokens, sep)| >= 1
    ensures Join(tokens, sep)[|Join(tokens, sep)| - 1] == tokens[|tokens| - 1][|tokens[|tokens| - 1]| - 1]
  {
    if |tokens| > 1 {
      JoinLast(tokens[1..], sep);
    }
  }

  /** Splitting undoes joining when no token holds the separator. */
  lemma {:induction false} SplitJoin(tokens: seq<string>, sep: char)
    requires |tokens| >= 1
    requires forall i :: 0 <= i < |tokens| ==> sep !in tokens[i]
    ensures Split(Join(tokens, [sep]), sep) == tokens
  {
    if |tokens| > 1 {
      var rest := Join(tokens[1..], [sep]);
      assert Join(tokens, [sep]) == tokens[0] + [sep] + rest;
      SplitAfter(tokens[0], sep, rest);
      SplitJoin(tokens[1..], sep);
      assert tokens == [tokens[0]] + tokens[1..];
    }
  }

  /** The first separator ends the first token. */
  lemma SplitAfter(a: string, sep: char, rest: string)
    requires sep !in a
    ensures Split(a + [sep] + rest, sep) == [a] + Split(rest, sep)
  {
    var s := a + [sep] + rest;
    IndexOfAfter(a, sep, rest);
    assert s[..|a|] == a;
    assert s[|a| + 1..] == rest;
  }

  /** The lines `std::getline` extracts one after another: pieces ended by `'\n'`;
      a last piece without one is still a line, and nothing after the final
      `'\n'` is not. */
  function Lines(s: string): (r: seq<string>)
    ensures forall i :: 0 <= i < |r| ==> '\n' !in r[i]
    decreases |s|
  {
    if s == [] then []
    else if '\n' !in s then [s]
    else
      var k := IndexOf(s, '\n');
      [s[..k]] + Lines(s[k + 1..])
  }

  /** Every line followed by `'\n'`, as a writer that ends each record with
      `"\n"` produces them. */
  function Unlines(ls: seq<string>): string
  {
    if ls == [] then "" else ls[0] + "\n" + Unlines(ls[1..])
  }

  lemma {:induction false} LinesUnlines(ls: seq<string>)
    requires forall i :: 0 <= i < |ls| ==> '\n' !in ls[i]
    ensures Lines(Unlines(ls)) == ls
  {
    if ls != [] {
      var rest := Unlines(ls[1..]);
      var s := ls[0] + "\n" + rest;
      IndexOfAfter(ls[0], '\n', rest);
      assert s[..|ls[0]|] == ls[0];
      assert s[|ls[0]| + 1..] == rest;
      LinesUnlines(ls[1..]);
    }
  }

  /** Adding a line at the end of the text appends that line and its `'\n'`. */
  lemma {:induction false} UnlinesSnoc(ls: seq<string>, l: string)
    ensures Unlines(ls + [l]) == Unlines(ls) + l + "\n"
  {
    if ls != [] {
      assert (ls + [l])[1..] == ls[1..] + [l];
      UnlinesSnoc(ls[1..], l);
    } else {
      assert ls + [l] == [l];
    }
  }

  /** `s.erase(std::remove(s.begin(), s.end(), ' '), s.end())`. */
  function RemoveSpaces(s: string): (r: string)
    ensures ' ' !in r
    ensures |r| <= |s|
  {
    if s == [] then []
    else if s[0] == ' ' then RemoveSpaces(s[1..])
    else [s[0]] + RemoveSpaces(s[1..])
  }

  lemma {:induction false} RemoveSpacesAppend(a: string, b: string)
    ensures RemoveSpaces(a + b) == RemoveSpaces(a) + RemoveSpaces(b)
  {
    if a == [] {
      assert a + b == b;
    } else {
      assert (a + b)[1..] == a[1..] + b;
      RemoveSpacesAppend(a[1..], b);
    }
  }

  lemma {:induction false} RemoveSpacesNone(s: string)
    requires ' ' !in s
    ensures RemoveSpaces(s) == s
  {
    if s != [] {
      assert ' ' !in s[1..];
      RemoveSpacesNone(s[1..]);
    }
  }

  /** Removing the spaces from joined tokens that hold none removes them from the
      separators alone. */
  lemma {:induction false} RemoveSpacesJoin(tokens: seq<string>, sep: string)
    requires |tokens| >= 1
    requires forall i :: 0 <= i < |tokens| ==> ' ' !in tokens[i]
    ensures RemoveSpaces(Join(tokens, sep)) == Join(tokens, RemoveSpaces(sep))
  {
    RemoveSpacesNone(tokens[0]);
    if |tokens| > 1 {
      var rest := Join(tokens[1..], sep);
      assert Join(tokens, sep) == tokens[0] + (sep + rest);
      RemoveSpacesAppend(tokens[0], sep + rest);
      RemoveSpacesAppend(sep, rest);
      RemoveSpacesJoin(tokens[1..], sep);
    }
  }

  /** `boost::trim_right`: drop the trailing white space. */
  function TrimRight(s: string): (r: string)
    ensures |r| <= |s| && r == s[..|r|]
    ensures r != [] ==> !IsSpace(r[|r| - 1])
    ensures forall i :: |r| <= i < |s| ==> IsSpace(s[i])
  {
    if s != [] && IsSpace(s[|s| - 1]) then TrimRight(s[..|s| - 1]) else s
  }

  /** Nothing to trim when the last character is not white space. */
  lemma TrimRightKeeps(s: string)
    requires s != [] && !IsSpace(s[|s| - 1])
    ensures TrimRight(s) == s
  {
  }
}
