/** The annotation renumbering script: every `*.txt` file of a log directory, in
    natural-sort order, is moved to the name whose number is `offset` higher,
    zero-padded to the width of the old name. The directory is a map from path to
    file contents. */
module Renumbering {
  import opened Wrappers
  import opened Numeric
  import opened TextFormat

  // ---------------------------------------------------------------------------
  // Natural sort key
  // ---------------------------------------------------------------------------

  /** One element of a sort key: a lower-cased text piece or the number of a digit run. */
  datatype KeyPiece = Txt(text: string) | Num(value: nat)

  /** `str.lower` on the ASCII letters. */
  function LowerChar(c: char): (d: char)
    ensures IsDigit(d) <==> IsDigit(c)
  {
    if 'A' <= c <= 'Z' then (c as int - 'A' as int + 'a' as int) as char else c
  }

  function Lower(s: string): (r: string)
    ensures |r| == |s|
  {
    seq(|s|, i requires 0 <= i < |s| => LowerChar(s[i]))
  }

  /** Length of the longest prefix without a digit. */
  function TextPrefixLen(s: string): (n: nat)
    ensures n <= |s|
  {
    if s == [] || IsDigit(s[0]) then 0 else 1 + TextPrefixLen(s[1..])
  }

  /** The text prefix is digit-free and maximal. */
  lemma {:induction false} TextPrefixFacts(s: string)
    ensures var n := TextPrefixLen(s); (n < |s| ==> IsDigit(s[n])) && NoDigit(s[..n])
    decreases |s|
  {
    if s != [] && !IsDigit(s[0]) {
      TextPrefixFacts(s[1..]);
      var n := TextPrefixLen(s[1..]);
      assert s[..n + 1] == [s[0]] + s[1..][..n];
    }
  }

  /** Length of the longest prefix of digits. */
  function DigitPrefixLen(s: string): (n: nat)
    ensures n <= |s|
  {
    if s == [] || !IsDigit(s[0]) then 0 else 1 + DigitPrefixLen(s[1..])
  }

  /** The digit prefix is all digits and maximal. */
  lemma {:induction false} DigitPrefixFacts(s: string)
    ensures var n := DigitPrefixLen(s); (n < |s| ==> !IsDigit(s[n])) && AllDigits(s[..n])
    decreases |s|
  {
    if s != [] && IsDigit(s[0]) {
      DigitPrefixFacts(s[1..]);
      var n := DigitPrefixLen(s[1..]);
      assert s[..n + 1] == [s[0]] + s[1..][..n];
    }
  }

  function Concat(pieces: seq<string>): string {
    if pieces == [] then [] else pieces[0] + Concat(pieces[1..])
  }

  predicate NoDigit(s: string) {
    forall i :: 0 <= i < |s| ==> !IsDigit(s[i])
  }

  /** `re.split('([0-9]+)', s)`: the maximal digit runs and the text between them,
      text first and text last (possibly empty); `DigitRunsShape` states this. */
  function DigitRuns(s: string): (pieces: seq<string>)
    ensures |pieces| >= 1
    decreases |s|
  {
    var t := TextPrefixLen(s);
    var rest := s[t..];
    if rest == [] then [s[..t]]
    else
      var d := DigitPrefixLen(rest);
      [s[..t], rest[..d]] + DigitRuns(rest[d..])
  }

  /** The pieces put back together give the name. */
  lemma {:induction false} DigitRunsConcat(s: string)
    ensures Concat(DigitRuns(s)) == s
    decreases |s|
  {
    var t := TextPrefixLen(s);
    var rest := s[t..];
    if rest == [] {
      assert s[..t] == s;
    } else {
      var d := DigitPrefixLen(rest);
      var tail := DigitRuns(rest[d..]);
      DigitRunsConcat(rest[d..]);
      assert DigitRuns(s) == [s[..t], rest[..d]] + tail;
      ConcatPair(s[..t], rest[..d], tail);
      assert s == s[..t] + (rest[..d] + rest[d..]);
    }
  }

  lemma ConcatPair(a: string, b: string, tail: seq<string>)
    ensures Concat([a, b] + tail) == a + (b + Concat(tail))
  {
    assert ([a, b] + tail)[1..] == [b] + tail;
    assert ([b] + tail)[1..] == tail;
  }

  /** Text and digit runs alternate, text first and last: a digit-free piece, then
      (a non-empty digit run and the same shape again) or nothing. */
  predicate Alternating(pieces: seq<string>)
    decreases |pieces|
  {
    |pieces| >= 1 && NoDigit(pieces[0]) &&
    (|pieces| == 1 || (|pieces| >= 3 && pieces[1] != [] && AllDigits(pieces[1]) && Alternating(pieces[2..])))
  }

  /** The split of any name has the alternating shape. */
  lemma {:induction false} DigitRunsShape(s: string)
    ensures Alternating(DigitRuns(s))
    decreases |s|
  {
    var t := TextPrefixLen(s);
    var rest := s[t..];
    var pieces := DigitRuns(s);
    TextPrefixFacts(s);
    if rest == [] {
      assert pieces == [s[..t]];
    } else {
      var d := DigitPrefixLen(rest);
      var tail := DigitRuns(rest[d..]);
      DigitPrefixFacts(rest);
      DigitRunsShape(rest[d..]);
      assert rest[0] == s[t];
      assert pieces == [s[..t], rest[..d]] + tail;
      assert pieces[2..] == tail;
    }
  }

  /** The key element of one piece: `int(text) if text.isdigit() else text.lower()`. */
  function PieceKey(piece: string): KeyPiece {
    if piece != [] && AllDigits(piece) then Num(DigitsValue(piece)) else Txt(Lower(piece))
  }

  /** The key of each piece, in order. */
  function PieceKeys(pieces: seq<string>): (keys: seq<KeyPiece>)
    ensures |keys| == |pieces|
  {
    seq(|pieces|, i requires 0 <= i < |pieces| => PieceKey(pieces[i]))
  }

  /** `natural_sort(s)`. */
  function NaturalSortKey(s: string): (key: seq<KeyPiece>)
    ensures |key| == |DigitRuns(s)| >= 1
  {
    PieceKeys(DigitRuns(s))
  }

  /** Text and number alternate, text first and last. */
  predicate KeyAlternating(key: seq<KeyPiece>)
    decreases |key|
  {
    |key| >= 1 && key[0].Txt? &&
    (|key| == 1 || (|key| >= 3 && key[1].Num? && KeyAlternating(key[2..])))
  }

  lemma {:induction false} PieceKeysAlternate(pieces: seq<string>)
    requires Alternating(pieces)
    ensures KeyAlternating(PieceKeys(pieces))
    ensures PieceKeys(pieces)[|pieces| - 1].Txt?
    decreases |pieces|
  {
    if pieces[0] != [] {
      assert !IsDigit(pieces[0][0]);
    }
    if |pieces| > 1 {
      assert PieceKeys(pieces)[2..] == PieceKeys(pieces[2..]);
      PieceKeysAlternate(pieces[2..]);
    }
  }

  /** The key alternates text and number, beginning and ending with text, so two
      keys are only ever compared text with text and number with number. */
  lemma KeyAlternates(s: string)
    ensures KeyAlternating(NaturalSortKey(s))
    ensures NaturalSortKey(s)[0].Txt? && NaturalSortKey(s)[|NaturalSortKey(s)| - 1].Txt?
  {
    DigitRunsShape(s);
    PieceKeysAlternate(DigitRuns(s));
  }

  /** Python's `<` on strings: code point by code point, a proper prefix first. */
  predicate StringLess(a: string, b: string) {
    if a == [] then b != []
    else if b == [] then false
    else if a[0] != b[0] then a[0] < b[0]
    else StringLess(a[1..], b[1..])
  }

  /** Python's `<` on key elements of the same kind (text and number are never
      compared, by `KeyAlternates`). */
  predicate PieceLess(a: KeyPiece, b: KeyPiece) {
    match (a, b)
    case (Txt(x), Txt(y)) => StringLess(x, y)
    case (Num(x), Num(y)) => x < y
    case _ => false
  }

  /** Python's `<` on lists: at the first differing element, or a proper prefix first. */
  predicate KeyLess(a: seq<KeyPiece>, b: seq<KeyPiece>) {
    if a == [] then b != []
    else if b == [] then false
    else if a[0] != b[0] then PieceLess(a[0], b[0])
    else KeyLess(a[1..], b[1..])
  }

  /** The key of a numeric name `digits + ext`. */
  lemma NumericNameKey(digits: string, ext: string)
    requires digits != [] && AllDigits(digits) && NoDigit(ext)
    ensures NaturalSortKey(digits + ext) == [Txt(""), Num(DigitsValue(digits)), Txt(Lower(ext))]
  {
    var s := digits + ext;
    assert TextPrefixLen(s) == 0;
    assert s[0..] == s;
    DigitPrefixOf(digits, ext);
    assert s[|digits|..] == ext;
    assert s[..|digits|] == digits;
    NoDigitRuns(ext);
    assert DigitRuns(s) == ["", digits, ext];
  }

  lemma {:induction false} DigitPrefixOf(digits: string, ext: string)
    requires AllDigits(digits) && NoDigit(ext)
    ensures DigitPrefixLen(digits + ext) == |digits|
    decreases |digits|
  {
    if digits == [] {
      assert digits + ext == ext;
    } else {
      assert (digits + ext)[1..] == digits[1..] + ext;
      DigitPrefixOf(digits[1..], ext);
    }
  }

  lemma {:induction false} NoDigitPrefix(s: string)
    requires NoDigit(s)
    ensures TextPrefixLen(s) == |s|
    decreases |s|
  {
    if s != [] {
      assert !IsDigit(s[0]);
      NoDigitPrefix(s[1..]);
    }
  }

  lemma NoDigitRuns(s: string)
    requires NoDigit(s)
    ensures DigitRuns(s) == [s]
  {
    NoDigitPrefix(s);
    assert s[..|s|] == s;
  }

  /** Numbered names with one extension sort by their number: `2` before `10`,
      unlike the plain string order. */
  lemma NaturalOrderIsNumeric(d1: string, d2: string, ext: string)
    requires d1 != [] && AllDigits(d1) && d2 != [] && AllDigits(d2) && NoDigit(ext)
    ensures KeyLess(NaturalSortKey(d1 + ext), NaturalSortKey(d2 + ext)) <==> DigitsValue(d1) < DigitsValue(d2)
  {
    NumericNameKey(d1, ext);
    NumericNameKey(d2, ext);
    KeyLessMiddle(Txt(""), Num(DigitsValue(d1)), Num(DigitsValue(d2)), Txt(Lower(ext)));
  }

  /** Two three-element keys that agree at both ends compare by their middle. */
  lemma KeyLessMiddle(a: KeyPiece, x: KeyPiece, y: KeyPiece, c: KeyPiece)
    ensures KeyLess([a, x, c], [a, y, c]) <==> x != y && PieceLess(x, y)
  {
    assert [c][1..] == [];
    assert !KeyLess([c], [c]);
    assert [x, c][1..] == [c] == [y, c][1..];
    assert KeyLess([x, c], [y, c]) <==> x != y && PieceLess(x, y);
    assert [a, x, c][1..] == [x, c] && [a, y, c][1..] == [y, c];
  }

  /** `2.txt` sorts before `10.txt` by the key, though not as plain strings. */
  lemma TwoBeforeTen()
    ensures KeyLess(NaturalSortKey("2.txt"), NaturalSortKey("10.txt"))
    ensures StringLess("10.txt", "2.txt")
  {
    assert "2.txt" == "2" + ".txt" && "10.txt" == "10" + ".txt";
    assert DigitsValue("2") == 2;
    assert DigitsValue("10") == 10 by {
      assert "10"[..1] == "1";
    }
    NaturalOrderIsNumeric("2", "10", ".txt");
  }

  lemma {:induction false} LowerPrefixLens(s: string)
    ensures TextPrefixLen(Lower(s)) == TextPrefixLen(s)
    ensures DigitPrefixLen(Lower(s)) == DigitPrefixLen(s)
    decreases |s|
  {
    if s != [] {
      assert Lower(s)[1..] == Lower(s[1..]);
      LowerPrefixLens(s[1..]);
    }
  }

  lemma LowerSlice(s: string, i: nat, j: nat)
    requires i <= j <= |s|
    ensures Lower(s)[i..j] == Lower(s[i..j])
  {
  }

  function LowerAll(pieces: seq<string>): (r: seq<string>)
    ensures |r| == |pieces|
  {
    seq(|pieces|, i requires 0 <= i < |pieces| => Lower(pieces[i]))
  }

  lemma LowerAllCons(a: string, b: string, tail: seq<string>)
    ensures LowerAll([a, b] + tail) == [Lower(a), Lower(b)] + LowerAll(tail)
  {
  }

  /** Lower-casing a name splits it into the lower-cased pieces. */
  lemma {:induction false} LowerDigitRuns(s: string)
    ensures DigitRuns(Lower(s)) == LowerAll(DigitRuns(s))
    decreases |s|
  {
    var t := TextPrefixLen(s);
    var ls := Lower(s);
    LowerPrefixLens(s);
    var rest, lrest := s[t..], ls[t..];
    LowerSlice(s, 0, t);
    LowerSlice(s, t, |s|);
    assert ls[..t] == Lower(s[..t]);
    assert lrest == Lower(rest);
    if rest == [] {
      assert DigitRuns(s) == [s[..t]];
      assert DigitRuns(ls) == [ls[..t]];
    } else {
      var d := DigitPrefixLen(rest);
      LowerPrefixLens(rest);
      LowerSlice(rest, 0, d);
      LowerSlice(rest, d, |rest|);
      assert lrest[d..] == Lower(rest[d..]);
      assert lrest[..d] == Lower(rest[..d]);
      LowerDigitRuns(rest[d..]);
      var tail := DigitRuns(rest[d..]);
      assert DigitRuns(s) == [s[..t], rest[..d]] + tail;
      assert DigitRuns(ls) == [ls[..t], lrest[..d]] + DigitRuns(lrest[d..]);
      LowerAllCons(s[..t], rest[..d], tail);
    }
  }

  lemma LowerDigitsUnchanged(s: string)
    requires AllDigits(s)
    ensures Lower(s) == s
  {
  }

  /** The key ignores letter case. */
  lemma NaturalSortIgnoresCase(s: string)
    ensures NaturalSortKey(Lower(s)) == NaturalSortKey(s)
  {
    LowerDigitRuns(s);
    var p, lp := DigitRuns(s), DigitRuns(Lower(s));
    assert forall i :: 0 <= i < |p| ==> lp[i] == Lower(p[i]);
    forall i | 0 <= i < |p|
      ensures PieceKey(lp[i]) == PieceKey(p[i])
    {
      if p[i] != [] && AllDigits(p[i]) {
        LowerDigitsUnchanged(p[i]);
      } else {
        if p[i] != [] {
          var k :| 0 <= k < |p[i]| && !IsDigit(p[i][k]);
          assert !IsDigit(lp[i][k]);
        }
        assert Lower(Lower(p[i])) == Lower(p[i]);
      }
    }
  }

  // ---------------------------------------------------------------------------
  // New file names
  // ---------------------------------------------------------------------------

  /** Last position of `c` in `s`, or -1. */
  function LastIndexOf(s: string, c: char): (k: int)
    ensures -1 <= k < |s|
    ensures k >= 0 ==> s[k] == c && c !in s[k + 1..]
    ensures k == -1 ==> c !in s
  {
    if s == [] then -1
    else if s[|s| - 1] == c then |s| - 1
    else
      var k := LastIndexOf(s[..|s| - 1], c);
      assert k >= 0 ==> s[k + 1..] == s[..|s| - 1][k + 1..] + [s[|s| - 1]];
      k
  }

  /** `os.path.splitext` of a base name: the extension runs from the last dot, unless
      only dots precede that dot. */
  function SplitExt(name: string): (r: (string, string))
    ensures r.0 + r.1 == name
  {
    var dot := LastIndexOf(name, '.');
    if dot >= 0 && exists i :: 0 <= i < dot && name[i] != '.' then
      assert name[..dot] + name[dot..] == name;
      (name[..dot], name[dot..])
    else (name, "")
  }

  /** What `glob('*.txt')` matches in a directory: a name ending in `.txt` that does
      not start with a dot. */
  predicate IsTxtName(name: string) {
    |name| >= 4 && name[|name| - 4..] == ".txt" && name[0] != '.'
  }

  /** A matched name splits into its stem and `.txt`. */
  lemma TxtSplitExt(name: string)
    requires IsTxtName(name)
    ensures SplitExt(name) == (name[..|name| - 4], ".txt")
  {
    var dot := LastIndexOf(name, '.');
    assert name[|name| - 4] == '.';
    assert name[|name| - 3..] == "txt";
    assert dot == |name| - 4;
    assert name[0] != '.';
  }

  /** Python `int(text)` on a sign and decimal digits (`None` is the `ValueError`). */
  function PyInt(s: string): (r: Option<int>)
    ensures s == [] ==> r == None
  {
    if s == [] then None
    else
      var digits := if s[0] == '-' || s[0] == '+' then s[1..] else s;
      if digits == [] || !AllDigits(digits) then None
      else if s[0] == '-' then Some(0 - DigitsValue(digits) as int)
      else Some(DigitsValue(digits) as int)
  }

  function Zeros(n: nat): (z: string)
    ensures |z| == n && AllDigits(z)
  {
    seq(n, _ => '0')
  }

  /** `str.zfill(width)`: zeros inserted after an optional sign up to `width`. */
  function Zfill(s: string, width: int): (r: string)
    ensures |r| == Max(|s|, width)
  {
    if |s| >= width then s
    else if s != [] && (s[0] == '+' || s[0] == '-') then [s[0]] + Zeros(width - |s|) + s[1..]
    else Zeros(width - |s|) + s
  }

  /** `str(int(stem) + offset).zfill(len(stem))`. */
  function NewStem(value: int, width: nat): string {
    Zfill(IntToString(value), width)
  }

  lemma {:induction false} LeadingZerosValue(z: nat, d: string)
    requires AllDigits(d)
    ensures DigitsValue(Zeros(z) + d) == DigitsValue(d)
    decreases |d|
  {
    if d == [] {
      assert Zeros(z) + d == Zeros(z);
      AllZerosValue(z);
    } else {
      assert (Zeros(z) + d)[..|Zeros(z) + d| - 1] == Zeros(z) + d[..|d| - 1];
      LeadingZerosValue(z, d[..|d| - 1]);
    }
  }

  lemma {:induction false} AllZerosValue(z: nat)
    ensures DigitsValue(Zeros(z)) == 0
  {
    if z > 0 {
      assert Zeros(z)[..z - 1] == Zeros(z - 1);
      AllZerosValue(z - 1);
    }
  }

  lemma PyIntOfDigits(d: string)
    requires d != [] && AllDigits(d)
    ensures PyInt(d) == Some(DigitsValue(d) as int)
  {
    assert d[0] != '-' && d[0] != '+';
  }

  lemma PyIntOfNegative(d: string)
    requires d != [] && AllDigits(d)
    ensures PyInt("-" + d) == Some(0 - DigitsValue(d) as int)
  {
    assert ("-" + d)[1..] == d;
  }

  /** The new stem denotes exactly the new number. */
  lemma NewStemValue(value: int, width: nat)
    ensures PyInt(NewStem(value, width)) == Some(value)
  {
    if value < 0 {
      NegativeStemValue(-value, width);
      assert IntToString(value) == "-" + NatToString(-value);
    } else {
      NonNegativeStemValue(value, width);
      assert IntToString(value) == NatToString(value);
    }
  }

  lemma NonNegativeStemValue(v: nat, width: nat)
    ensures PyInt(Zfill(NatToString(v), width)) == Some(v as int)
  {
    var n := NatToString(v);
    NatToStringValue(v);
    if |n| < width {
      assert n[0] != '+' && n[0] != '-';
      var r := Zeros(width - |n|) + n;
      assert Zfill(n, width) == r;
      LeadingZerosValue(width - |n|, n);
      PyIntOfDigits(r);
    } else {
      PyIntOfDigits(n);
    }
  }

  lemma NegativeStemValue(v: nat, width: nat)
    requires v > 0
    ensures PyInt(Zfill("-" + NatToString(v), width)) == Some(0 - v)
  {
    var n := NatToString(v);
    NatToStringValue(v);
    if |n| + 1 < width {
      ZfillNegative(n, width);
      LeadingZerosValue(width - 1 - |n|, n);
      PyIntOfNegative(Zeros(width - 1 - |n|) + n);
    } else {
      PyIntOfNegative(n);
    }
  }

  /** Padding a negative number puts the zeros between the sign and the digits. */
  lemma ZfillNegative(n: string, width: int)
    requires |n| + 1 < width
    ensures Zfill("-" + n, width) == "-" + (Zeros(width - 1 - |n|) + n)
  {
    var s := "-" + n;
    assert s[0] == '-' && s[1..] == n;
  }

  /** The new stem is never shorter than the old, and longer only when the new
      number has more characters than the old stem. */
  lemma NewStemLength(value: int, width: nat)
    ensures |NewStem(value, width)| >= width
    ensures |NewStem(value, width)| > width ==> |NewStem(value, width)| == |IntToString(value)|
  {
  }

  /** The name a file moves to: the new stem and the old extension (`None` when the
      stem is not an integer). */
  function DestName(name: string, offset: int): (r: Option<string>)
    ensures r.Some? <==> PyInt(SplitExt(name).0).Some?
    ensures r.Some? ==> |r.value| >= |name|
  {
    var (stem, ext) := SplitExt(name);
    var n := PyInt(stem);
    if n.None? then None
    else
      NewStemLength(n.value + offset, |stem|);
      Some(NewStem(n.value + offset, |stem|) + ext)
  }

  /** A `.txt` file keeps its extension, and its new stem denotes the old number plus
      `offset`. */
  lemma DestNameOfTxt(name: string, offset: int, v: int)
    requires IsTxtName(name) && PyInt(name[..|name| - 4]) == Some(v)
    ensures DestName(name, offset).Some?
    ensures var d := DestName(name, offset).value;
            |d| >= |name| && d[|d| - 4..] == ".txt" && PyInt(d[..|d| - 4]) == Some(v + offset)
  {
    TxtSplitExt(name);
    DestNameShape(name, offset, v);
    var stem :| DestName(name, offset) == Some(stem + ".txt") && |stem| >= |name| - 4 && PyInt(stem) == Some(v + offset);
    WithTxtSuffix(DestName(name, offset).value, stem);
  }

  /** The destination of a name whose stem is an integer is a stem of the new value,
      at least as long as the old stem, followed by the old extension. */
  lemma DestNameShape(name: string, offset: int, v: int)
    requires PyInt(SplitExt(name).0) == Some(v)
    ensures exists stem :: DestName(name, offset) == Some(stem + SplitExt(name).1) &&
                           |stem| >= |SplitExt(name).0| && PyInt(stem) == Some(v + offset)
  {
    var stem := NewStem(v + offset, |SplitExt(name).0|);
    NewStemLength(v + offset, |SplitExt(name).0|);
    NewStemValue(v + offset, |SplitExt(name).0|);
    assert DestName(name, offset) == Some(stem + SplitExt(name).1);
  }

  lemma WithTxtSuffix(d: string, stem: string)
    requires d == stem + ".txt"
    ensures |d| == |stem| + 4 && d[..|d| - 4] == stem && d[|d| - 4..] == ".txt"
  {
    assert d[..|d| - 4] == stem;
  }

  // ---------------------------------------------------------------------------
  // Moving the files
  // ---------------------------------------------------------------------------

  datatype FilePath = FilePath(dir: string, name: string)

  type Directory = map<FilePath, string>

  datatype RenumberError =
    | NotAnInteger(name: string)         // `int()` raises `ValueError`
    | DestinationExists(dst: FilePath)   // the `assert` fails
    | SourceMissing(src: FilePath)       // `shutil.move` raises

  /** `sorted(glob(join(logdir, '*.txt')), key=natural_sort)`: every listed name is a
      `.txt` file of `logdir`, every such file is listed once, in key order. */
  predicate SortedListing(fs: Directory, logdir: string, names: seq<string>) {
    (forall i :: 0 <= i < |names| ==> IsTxtName(names[i]) && FilePath(logdir, names[i]) in fs) &&
    (forall p :: p in fs && p.dir == logdir && IsTxtName(p.name) ==> p.name in names) &&
    (forall i, j :: 0 <= i < j < |names| ==> names[i] != names[j]) &&
    KeySorted(names)
  }

  /** No name sorts before the one listed ahead of it. */
  predicate KeySorted(names: seq<string>) {
    forall i :: 0 < i < |names| ==> !KeyLess(NaturalSortKey(names[i]), NaturalSortKey(names[i - 1]))
  }

  function Move(fs: Directory, src: FilePath, dst: FilePath): Directory
    requires src in fs
  {
    (fs - {src})[dst := fs[src]]
  }

  /** The effect of the loop of `correct_annotations` over `names`: each file moves
      in turn, and the first failure stops the script. */
  function RenumberAll(fs: Directory, logdir: string, outdir: string, offset: int, names: seq<string>): Result<Directory, RenumberError>
    decreases |names|
  {
    if names == [] then Success(fs)
    else
      var src := FilePath(logdir, names[0]);
      match DestName(names[0], offset)
      case None => Failure(NotAnInteger(names[0]))
      case Some(d) =>
        var dst := FilePath(outdir, d);
        if dst in fs then Failure(DestinationExists(dst))
        else if src !in fs then Failure(SourceMissing(src))
        else RenumberAll(Move(fs, src, dst), logdir, outdir, offset, names[1..])
  }

  /** `correct_annotations(logdir, outdir, offset)` over the sorted listing; `outdir`
      falls back to `logdir`. */
  method CorrectAnnotations(fs: Directory, logdir: string, outdir: Option<string>, offset: int, annotations: seq<string>)
    returns (r: Result<Directory, RenumberError>)
    requires SortedListing(fs, logdir, annotations)
    ensures r == RenumberAll(fs, logdir, outdir.GetOr(logdir), offset, annotations)
  {
    var out := if outdir.None? then logdir else outdir.value;
    r := MoveAnnotations(fs, logdir, out, offset, annotations);
  }

  /** The loop of `correct_annotations`: move each listed file in turn to its
      renumbered name in `outdir`, stopping at the first failure. */
  method MoveAnnotations(fs: Directory, logdir: string, outdir: string, offset: int, annotations: seq<string>)
    returns (r: Result<Directory, RenumberError>)
    ensures r == RenumberAll(fs, logdir, outdir, offset, annotations)
  {
    var dir := fs;
    var i := 0;
    assert annotations[0..] == annotations;
    while i < |annotations|
      invariant 0 <= i <= |annotations|
      invariant RenumberAll(fs, logdir, outdir, offset, annotations) == RenumberAll(dir, logdir, outdir, offset, annotations[i..])
    {
      var annotation := annotations[i];
      RenumberAt(dir, logdir, outdir, offset, annotations, i);
      var dstName := DestName(annotation, offset);
      if dstName.None? {
        return Failure(NotAnInteger(annotation));
      }
      var dstFpath := FilePath(outdir, dstName.value);
      if dstFpath in dir {
        return Failure(DestinationExists(dstFpath));
      }
      var src := FilePath(logdir, annotation);
      if src !in dir {
        return Failure(SourceMissing(src));
      }
      dir := Move(dir, src, dstFpath);
      i := i + 1;
    }
    return Success(dir);
  }

  /** `RenumberAll` from position `i` of the listing, unfolded once. */
  lemma RenumberAt(fs: Directory, logdir: string, outdir: string, offset: int, names: seq<string>, i: nat)
    requires i < |names|
    ensures RenumberAll(fs, logdir, outdir, offset, names[i..]) ==
            match DestName(names[i], offset)
            case None => Failure(NotAnInteger(names[i]))
            case Some(d) =>
              if FilePath(outdir, d) in fs then Failure(DestinationExists(FilePath(outdir, d)))
              else if FilePath(logdir, names[i]) !in fs then Failure(SourceMissing(FilePath(logdir, names[i])))
              else RenumberAll(Move(fs, FilePath(logdir, names[i]), FilePath(outdir, d)), logdir, outdir, offset, names[i + 1..])
  {
    assert names[i..][0] == names[i] && names[i..][1..] == names[i + 1..];
  }

  /** One turn of the loop: the first file moves and the rest follow. */
  lemma RenumberStep(fs: Directory, logdir: string, outdir: string, offset: int, names: seq<string>)
    requires names != [] && DestName(names[0], offset).Some?
    requires FilePath(outdir, DestName(names[0], offset).value) !in fs && FilePath(logdir, names[0]) in fs
    ensures RenumberAll(fs, logdir, outdir, offset, names) ==
            RenumberAll(Move(fs, FilePath(logdir, names[0]), FilePath(outdir, DestName(names[0], offset).value)), logdir, outdir, offset, names[1..])
  {
  }

  lemma DestOfOne()
    ensures DestName("1.txt", 1) == Some("2.txt")
  {
    TxtSplitExt("1.txt");
    assert "1.txt"[..1] == "1";
    PyIntOfDigits("1");
    assert DigitsValue("1") == 1;
    assert IntToString(2) == NatToString(2) == [DigitChar(2)] == "2";
    assert NewStem(2, 1) == "2";
    assert SplitExt("1.txt") == ("1", ".txt");
    assert PyInt(SplitExt("1.txt").0) == Some(1);
    assert "2" + ".txt" == "2.txt";
  }

  lemma OneBeforeTwo()
    ensures !KeyLess(NaturalSortKey("2.txt"), NaturalSortKey("1.txt"))
  {
    assert "1.txt" == "1" + ".txt" && "2.txt" == "2" + ".txt";
    assert DigitsValue("1") == 1 && DigitsValue("2") == 2;
    NaturalOrderIsNumeric("2", "1", ".txt");
  }

  lemma KeySortedOneTwo()
    ensures KeySorted(["1.txt", "2.txt"])
  {
    OneBeforeTwo();
    var names := ["1.txt", "2.txt"];
    forall i | 0 < i < |names|
      ensures !KeyLess(NaturalSortKey(names[i]), NaturalSortKey(names[i - 1]))
    {
      assert i == 1 && names[1] == "2.txt" && names[0] == "1.txt";
    }
  }

  lemma TxtFilesOneTwo(logdir: string)
    ensures var fs := map[FilePath(logdir, "1.txt") := "a", FilePath(logdir, "2.txt") := "b"];
            var names := ["1.txt", "2.txt"];
            (forall i :: 0 <= i < |names| ==> IsTxtName(names[i]) && FilePath(logdir, names[i]) in fs) &&
            (forall p :: p in fs && p.dir == logdir && IsTxtName(p.name) ==> p.name in names) &&
            (forall i, j :: 0 <= i < j < |names| ==> names[i] != names[j])
  {
    assert "1.txt"[1..] == ".txt" && "2.txt"[1..] == ".txt";
    assert "1.txt" != "2.txt" by { assert "1.txt"[0] != "2.txt"[0]; }
  }

  lemma ListingOfOneTwo(logdir: string)
    ensures SortedListing(map[FilePath(logdir, "1.txt") := "a", FilePath(logdir, "2.txt") := "b"], logdir, ["1.txt", "2.txt"])
  {
    TxtFilesOneTwo(logdir);
    KeySortedOneTwo();
  }

  /** Renumbering in place by +1 stops at the first file: `1.txt` would move onto the
      `2.txt` still present. */
  lemma InPlaceRenumberCollides(logdir: string)
    ensures var fs := map[FilePath(logdir, "1.txt") := "a", FilePath(logdir, "2.txt") := "b"];
            SortedListing(fs, logdir, ["1.txt", "2.txt"]) &&
            RenumberAll(fs, logdir, logdir, 1, ["1.txt", "2.txt"]) == Failure(DestinationExists(FilePath(logdir, "2.txt")))
  {
    ListingOfOneTwo(logdir);
    DestOfOne();
  }

  /** Renumbering in place by +1 completes when no destination is taken: for
      one-digit names `a` and `c` at least two apart (`1.txt, 3.txt`, say), both
      files move to the next digit's name with their contents. */
  lemma InPlaceFreeDigits(logdir: string, a: char, c: char)
    requires '1' <= a && a as int + 2 <= c as int && c <= '8'
    ensures var an, cn := [a] + ".txt", [c] + ".txt";
            var bn, dn := [(a as int + 1) as char] + ".txt", [(c as int + 1) as char] + ".txt";
            RenumberAll(map[FilePath(logdir, an) := "a", FilePath(logdir, cn) := "b"], logdir, logdir, 1, [an, cn]) ==
            Success(map[FilePath(logdir, bn) := "a", FilePath(logdir, dn) := "b"])
  {
    var an, cn := [a] + ".txt", [c] + ".txt";
    var bn, dn := [(a as int + 1) as char] + ".txt", [(c as int + 1) as char] + ".txt";
    var one, two, three, four := FilePath(logdir, an), FilePath(logdir, bn), FilePath(logdir, cn), FilePath(logdir, dn);
    DigitNamesDistinct(a, c);
    DestOfDigit(a);
    DestOfDigit(c);
    MoveTwice(one, two, three, four, "a", "b");
    RenumberTwo(map[one := "a", three := "b"], logdir, logdir, 1, an, cn);
  }

  lemma DigitNamesDistinct(a: char, c: char)
    requires '1' <= a && a as int + 2 <= c as int && c <= '8'
    ensures var an, cn := [a] + ".txt", [c] + ".txt";
            var bn, dn := [(a as int + 1) as char] + ".txt", [(c as int + 1) as char] + ".txt";
            an != bn && an != cn && an != dn && bn != cn && bn != dn && cn != dn
  {
    var an, cn := [a] + ".txt", [c] + ".txt";
    var bn, dn := [(a as int + 1) as char] + ".txt", [(c as int + 1) as char] + ".txt";
    assert an[0] == a && bn[0] != a && cn[0] == c && dn[0] != c && bn[0] != c && dn[0] != a;
  }

  /** Two listed files whose moves are free one after the other are both moved. */
  lemma RenumberTwo(fs: Directory, logdir: string, outdir: string, offset: int, n1: string, n2: string)
    requires DestName(n1, offset).Some? && DestName(n2, offset).Some?
    requires FilePath(logdir, n1) in fs && FilePath(outdir, DestName(n1, offset).value) !in fs
    requires var fs1 := Move(fs, FilePath(logdir, n1), FilePath(outdir, DestName(n1, offset).value));
             FilePath(logdir, n2) in fs1 && FilePath(outdir, DestName(n2, offset).value) !in fs1
    ensures var fs1 := Move(fs, FilePath(logdir, n1), FilePath(outdir, DestName(n1, offset).value));
            RenumberAll(fs, logdir, outdir, offset, [n1, n2]) ==
            Success(Move(fs1, FilePath(logdir, n2), FilePath(outdir, DestName(n2, offset).value)))
  {
    var names := [n1, n2];
    RenumberStep(fs, logdir, outdir, offset, names);
    var fs1 := Move(fs, FilePath(logdir, n1), FilePath(outdir, DestName(n1, offset).value));
    assert names[1..] == [n2];
    RenumberStep(fs1, logdir, outdir, offset, [n2]);
    assert [n2][1..] == [];
  }

  lemma MoveTwice(one: FilePath, two: FilePath, three: FilePath, four: FilePath, x: string, y: string)
    requires one != three && two != three && one != four && two != four && one != two && three != four
    ensures var fs := map[one := x, three := y];
            three in Move(fs, one, two) && four !in Move(fs, one, two) &&
            Move(Move(fs, one, two), three, four) == map[two := x, four := y]
  {
    var fs := map[one := x, three := y];
    assert Move(fs, one, two) == map[two := x, three := y];
  }

  /** A one-digit `.txt` name moves to the next digit's name under offset 1. */
  lemma DestOfDigit(c: char)
    requires '1' <= c <= '8'
    ensures DestName([c] + ".txt", 1) == Some([(c as int + 1) as char] + ".txt")
  {
    var d: nat := c as int - '0' as int;
    assert c == DigitChar(d);
    var name := [c] + ".txt";
    assert name[|name| - 4..] == ".txt" && name[0] != '.';
    TxtSplitExt(name);
    assert name[..1] == [c];
    assert DigitsValue([c]) == d by {
      assert [c][..0] == [];
    }
    PyIntOfDigits([c]);
    assert IntToString(d + 1) == NatToString(d + 1) == [DigitChar(d + 1)];
    assert NewStem(d + 1, 1) == [(c as int + 1) as char];
  }

  /** `p` is the path of one of `names` in `logdir`. */
  predicate IsSource(p: FilePath, logdir: string, names: seq<string>) {
    exists j :: 0 <= j < |names| && p == FilePath(logdir, names[j])
  }

  /** `p` is where one of `names` moves to. */
  predicate IsDest(p: FilePath, outdir: string, offset: int, names: seq<string>) {
    exists j :: 0 <= j < |names| && Some(p.name) == DestName(names[j], offset) && p.dir == outdir
  }

  lemma TailSourcesAndDests(p: FilePath, logdir: string, outdir: string, offset: int, names: seq<string>)
    requires names != []
    ensures IsSource(p, logdir, names[1..]) ==> IsSource(p, logdir, names)
    ensures IsDest(p, outdir, offset, names[1..]) ==> IsDest(p, outdir, offset, names)
  {
    if IsSource(p, logdir, names[1..]) {
      var j :| 0 <= j < |names[1..]| && p == FilePath(logdir, names[1..][j]);
      assert p == FilePath(logdir, names[j + 1]);
    }
    if IsDest(p, outdir, offset, names[1..]) {
      var j :| 0 <= j < |names[1..]| && Some(p.name) == DestName(names[1..][j], offset) && p.dir == outdir;
      assert Some(p.name) == DestName(names[j + 1], offset);
    }
  }

  /** The conditions under which every file of `names` moves: each stem is an
      integer, each source is present, no destination is taken beforehand, and
      neither the names nor their destinations repeat. `outdir` may be `logdir`
      (the renumbering in place); a free destination is then never a source. */
  predicate MovesApply(fs: Directory, logdir: string, outdir: string, offset: int, names: seq<string>) {
    (forall i :: 0 <= i < |names| ==> DestName(names[i], offset).Some?) &&
    (forall i :: 0 <= i < |names| ==> FilePath(logdir, names[i]) in fs) &&
    (forall i :: 0 <= i < |names| ==> FilePath(outdir, DestName(names[i], offset).value) !in fs) &&
    (forall i, j :: 0 <= i < j < |names| ==> names[i] != names[j]) &&
    (forall i, j :: 0 <= i < j < |names| ==> DestName(names[i], offset) != DestName(names[j], offset))
  }

  /** Moving the first file keeps the conditions for the others. */
  lemma MovesApplyToTail(fs: Directory, logdir: string, outdir: string, offset: int, names: seq<string>)
    requires names != [] && MovesApply(fs, logdir, outdir, offset, names)
    ensures var fs' := Move(fs, FilePath(logdir, names[0]), FilePath(outdir, DestName(names[0], offset).value));
            MovesApply(fs', logdir, outdir, offset, names[1..])
  {
    var rest := names[1..];
    forall i | 0 <= i < |rest|
      ensures rest[i] == names[i + 1]
    {
    }
  }

  /** When the moves apply, renumbering succeeds and touches no path other than the
      sources and destinations. */
  lemma {:induction false} RenumberKeepsOthers(fs: Directory, logdir: string, outdir: string, offset: int, names: seq<string>)
    requires MovesApply(fs, logdir, outdir, offset, names)
    ensures var r := RenumberAll(fs, logdir, outdir, offset, names);
            r.Success? &&
            (forall p: FilePath :: !IsSource(p, logdir, names) && !IsDest(p, outdir, offset, names) ==>
               (p in r.value <==> p in fs) && (p in fs ==> r.value[p] == fs[p]))
    decreases |names|
  {
    if names != [] {
      var src := FilePath(logdir, names[0]);
      var dst := FilePath(outdir, DestName(names[0], offset).value);
      var fs' := Move(fs, src, dst);
      MovesApplyToTail(fs, logdir, outdir, offset, names);
      RenumberKeepsOthers(fs', logdir, outdir, offset, names[1..]);
      var r := RenumberAll(fs, logdir, outdir, offset, names);
      assert r == RenumberAll(fs', logdir, outdir, offset, names[1..]);
      forall p: FilePath | !IsSource(p, logdir, names) && !IsDest(p, outdir, offset, names)
        ensures (p in r.value <==> p in fs) && (p in fs ==> r.value[p] == fs[p])
      {
        assert p != src;
        assert p != dst by {
          assert Some(dst.name) == DestName(names[0], offset);
        }
        TailSourcesAndDests(p, logdir, outdir, offset, names);
      }
    }
  }

  /** The first file ends up at its destination and its source is gone. */
  lemma FirstFileMoves(fs: Directory, logdir: string, outdir: string, offset: int, names: seq<string>)
    requires names != [] && MovesApply(fs, logdir, outdir, offset, names)
    ensures var r := RenumberAll(fs, logdir, outdir, offset, names);
            var dst := FilePath(outdir, DestName(names[0], offset).value);
            r.Success? && FilePath(logdir, names[0]) !in r.value && dst in r.value && r.value[dst] == fs[FilePath(logdir, names[0])]
  {
    var src := FilePath(logdir, names[0]);
    var dst := FilePath(outdir, DestName(names[0], offset).value);
    var fs' := Move(fs, src, dst);
    RenumberStep(fs, logdir, outdir, offset, names);
    MovesApplyToTail(fs, logdir, outdir, offset, names);
    RenumberKeepsOthers(fs', logdir, outdir, offset, names[1..]);
    FirstOutsideTail(fs, logdir, outdir, offset, names);
  }

  /** Neither the first source nor the first destination is a source or a
      destination of the later files. */
  lemma FirstOutsideTail(fs: Directory, logdir: string, outdir: string, offset: int, names: seq<string>)
    requires names != [] && MovesApply(fs, logdir, outdir, offset, names)
    ensures var src := FilePath(logdir, names[0]);
            var dst := FilePath(outdir, DestName(names[0], offset).value);
            !IsSource(src, logdir, names[1..]) && !IsDest(src, outdir, offset, names[1..]) &&
            !IsSource(dst, logdir, names[1..]) && !IsDest(dst, outdir, offset, names[1..])
  {
    var src := FilePath(logdir, names[0]);
    var dst := FilePath(outdir, DestName(names[0], offset).value);
    var rest := names[1..];
    forall j | 0 <= j < |rest|
      ensures src != FilePath(logdir, rest[j]) && dst != FilePath(logdir, rest[j])
      ensures Some(src.name) != DestName(rest[j], offset) || src.dir != outdir
      ensures Some(dst.name) != DestName(rest[j], offset)
    {
      assert rest[j] == names[j + 1];
      assert FilePath(logdir, rest[j]) in fs;
    }
  }

  /** When every stem is an integer and the destinations are distinct and absent,
      every file moves (into `outdir`, which may be `logdir` itself): each destination holds its source's
      contents and each source is gone. */
  lemma {:induction false} RenumberMovesEveryFile(fs: Directory, logdir: string, outdir: string, offset: int, names: seq<string>)
    requires MovesApply(fs, logdir, outdir, offset, names)
    ensures var r := RenumberAll(fs, logdir, outdir, offset, names);
            r.Success? &&
            forall i :: 0 <= i < |names| ==>
              FilePath(logdir, names[i]) !in r.value &&
              FilePath(outdir, DestName(names[i], offset).value) in r.value &&
              r.value[FilePath(outdir, DestName(names[i], offset).value)] == fs[FilePath(logdir, names[i])]
    decreases |names|
  {
    if names != [] {
      var fs' := Move(fs, FilePath(logdir, names[0]), FilePath(outdir, DestName(names[0], offset).value));
      var rest := names[1..];
      MovesApplyToTail(fs, logdir, outdir, offset, names);
      RenumberMovesEveryFile(fs', logdir, outdir, offset, rest);
      FirstFileMoves(fs, logdir, outdir, offset, names);
      var r := RenumberAll(fs, logdir, outdir, offset, names);
      assert r == RenumberAll(fs', logdir, outdir, offset, rest);
      forall i | 0 < i < |names|
        ensures FilePath(logdir, names[i]) !in r.value
        ensures FilePath(outdir, DestName(names[i], offset).value) in r.value
        ensures r.value[FilePath(outdir, DestName(names[i], offset).value)] == fs[FilePath(logdir, names[i])]
      {
        assert names[i] == rest[i - 1];
        assert FilePath(logdir, names[i]) != FilePath(logdir, names[0]);
      }
    }
  }
}
