/** ASCII models of the Go library string operations both generators rely on:
    strings.ToLower / ToUpper / TrimSpace / Title / Replace / TrimRight,
    strconv.Atoi, and the regular-expression rewrite `: (.*)` -> `: [$1]`. */
module Text {

  // ---------------------------------------------------------------------------
  // Case mapping (ASCII letters only)
  // ---------------------------------------------------------------------------

  predicate IsUpper(c: char) { 'A' <= c <= 'Z' }
  predicate IsLower(c: char) { 'a' <= c <= 'z' }

  function LowerChar(c: char): (r: char)
    ensures !IsUpper(r)
    ensures IsUpper(c) || r == c
  {
    if IsUpper(c) then (c as int + 32) as char else c
  }

  function UpperChar(c: char): (r: char)
    ensures !IsLower(r)
    ensures IsLower(c) || r == c
  {
    if IsLower(c) then (c as int - 32) as char else c
  }

  /** strings.ToLower */
  function ToLower(s: string): (r: string)
    ensures |r| == |s|
    ensures forall i :: 0 <= i < |s| ==> r[i] == LowerChar(s[i])
  {
    if s == [] then [] else [LowerChar(s[0])] + ToLower(s[1..])
  }

  /** strings.ToUpper */
  function ToUpper(s: string): (r: string)
    ensures |r| == |s|
    ensures forall i :: 0 <= i < |s| ==> r[i] == UpperChar(s[i])
  {
    if s == [] then [] else [UpperChar(s[0])] + ToUpper(s[1..])
  }

  lemma ToUpperIdempotent(s: string)
    ensures ToUpper(ToUpper(s)) == ToUpper(s)
  {
  }

  /** Regrouping a concatenation, for proofs where the solver would search for it. */
  lemma Assoc(x: string, y: string, z: string)
    ensures (x + y) + z == x + (y + z)
  {
  }

  /** Lower-casing brings in no character but lower-case letters. */
  lemma ToLowerAbsent(s: string, ch: char)
    requires ch !in s && !IsLower(ch)
    ensures ch !in ToLower(s)
  {
    var r := ToLower(s);
    forall i | 0 <= i < |r| ensures r[i] != ch {
      assert r[i] == LowerChar(s[i]);
    }
  }

  lemma ToLowerAppend(a: string, b: string)
    ensures ToLower(a + b) == ToLower(a) + ToLower(b)
  {
  }

  // ---------------------------------------------------------------------------
  // strings.TrimSpace and strings.Title
  // ---------------------------------------------------------------------------

  /** The ASCII white space strings.TrimSpace removes. */
  predicate IsSpace(c: char) {
    c == ' ' || c == '\t' || c == '\n' || c == '\r' || c == '\U{0B}' || c == '\U{0C}'
  }

  function TrimLeftSpace(s: string): (r: string)
    ensures |r| <= |s|
  {
    if s != [] && IsSpace(s[0]) then TrimLeftSpace(s[1..]) else s
  }

  function TrimRightSpace(s: string): (r: string)
    ensures |r| <= |s|
  {
    if s != [] && IsSpace(s[|s| - 1]) then TrimRightSpace(s[..|s| - 1]) else s
  }

  /** strings.TrimSpace: drop the white space at both ends. */
  function TrimSpace(s: string): string {
    TrimRightSpace(TrimLeftSpace(s))
  }

  /** TrimSpace removes a prefix and a suffix of white space and keeps the rest. */
  lemma {:induction false} TrimSpaceInfix(s: string) returns (k: nat)
    ensures var r := TrimSpace(s);
      r == [] || (!IsSpace(r[0]) && !IsSpace(r[|r| - 1]))
    ensures k + |TrimSpace(s)| <= |s| && TrimSpace(s) == s[k..k + |TrimSpace(s)|]
    ensures forall i | 0 <= i < k :: IsSpace(s[i])
    ensures forall i | k + |TrimSpace(s)| <= i < |s| :: IsSpace(s[i])
  {
    var l := TrimLeftSpace(s);
    k := TrimLeftIsSuffix(s);
    var r := TrimRightSpace(l);
    TrimRightIsPrefix(l);
    assert r == s[k..k + |r|];
  }

  lemma {:induction false} TrimLeftIsSuffix(s: string) returns (k: nat)
    ensures k <= |s| && TrimLeftSpace(s) == s[k..]
    ensures TrimLeftSpace(s) == [] || !IsSpace(TrimLeftSpace(s)[0])
    ensures forall i | 0 <= i < k :: IsSpace(s[i])
  {
    if s != [] && IsSpace(s[0]) {
      var k' := TrimLeftIsSuffix(s[1..]);
      k := k' + 1;
      assert s[1..][k'..] == s[k..];
    } else {
      k := 0;
    }
  }

  lemma {:induction false} TrimRightIsPrefix(s: string)
    ensures TrimRightSpace(s) == s[..|TrimRightSpace(s)|]
    ensures TrimRightSpace(s) == [] || !IsSpace(TrimRightSpace(s)[|TrimRightSpace(s)| - 1])
    ensures TrimRightSpace(s) == [] || !IsSpace(TrimRightSpace(s)[0]) || IsSpace(s[0])
    ensures forall i | |TrimRightSpace(s)| <= i < |s| :: IsSpace(s[i])
  {
    if s != [] && IsSpace(s[|s| - 1]) {
      TrimRightIsPrefix(s[..|s| - 1]);
    }
  }

  /** Text that neither starts nor ends with white space is left as it is. */
  lemma TrimSpaceKeeps(s: string)
    requires s == [] || (!IsSpace(s[0]) && !IsSpace(s[|s| - 1]))
    ensures TrimSpace(s) == s
  {
  }

  /** Characters after which strings.Title does NOT capitalise: ASCII letters, digits and '_'. */
  predicate IsWordChar(c: char) {
    IsUpper(c) || IsLower(c) || ('0' <= c <= '9') || c == '_'
  }

  /** strings.Title: upper-case every character that is first or follows a separator. */
  function Title(s: string): (r: string)
    ensures |r| == |s|
    ensures s != [] ==> r[0] == UpperChar(s[0])
    ensures forall i {:trigger r[i]} :: 0 < i < |s| ==>
      r[i] == (if IsWordChar(s[i - 1]) then s[i] else UpperChar(s[i]))
  {
    TitleAfter(' ', s)
  }

  function TitleAfter(prev: char, s: string): (r: string)
    ensures |r| == |s|
    ensures s != [] ==> r[0] == (if IsWordChar(prev) then s[0] else UpperChar(s[0]))
    ensures forall i {:trigger r[i]} :: 0 < i < |s| ==>
      r[i] == (if IsWordChar(s[i - 1]) then s[i] else UpperChar(s[i]))
    decreases |s|
  {
    if s == [] then []
    else [if IsWordChar(prev) then s[0] else UpperChar(s[0])] + TitleAfter(s[0], s[1..])
  }

  // ---------------------------------------------------------------------------
  // Occurrences of a pattern
  // ---------------------------------------------------------------------------

  predicate OccursAt(s: string, p: string, i: int) {
    0 <= i && i + |p| <= |s| && s[i..i + |p|] == p
  }

  /** strings.Contains */
  predicate Contains(s: string, p: string) {
    exists i | 0 <= i <= |s| - |p| :: OccursAt(s, p, i)
  }

  predicate EndsWith(s: string, p: string) {
    |p| <= |s| && s[|s| - |p|..] == p
  }

  lemma EndsWithAppend(a: string, b: string)
    ensures EndsWith(a + b, b)
  {
    assert (a + b)[|a|..] == b;
  }

  /** No occurrence of `p` starts inside `a` and ends inside `b`. */
  predicate NoStraddle(a: string, b: string, p: string) {
    forall i | 0 <= i < |a| < i + |p| :: !OccursAt(a + b, p, i)
  }

  /** No occurrence of `p` anywhere in `s`. */
  predicate NoOcc(s: string, p: string) {
    forall i | 0 <= i <= |s| - |p| :: !OccursAt(s, p, i)
  }

  /** A pattern cannot occur in a text that lacks one of its characters. */
  lemma NoOccMissing(s: string, p: string, c: char)
    requires c in p && c !in s
    ensures NoOcc(s, p)
  {
    var k :| 0 <= k < |p| && p[k] == c;
    forall i | 0 <= i <= |s| - |p| ensures !OccursAt(s, p, i) {
      assert s[i..i + |p|][k] == s[i + k];
    }
  }

  // ---------------------------------------------------------------------------
  // strings.Replace(s, p, q, -1): leftmost, non-overlapping, all occurrences
  // ---------------------------------------------------------------------------

  function Replace(s: string, p: string, q: string): (r: string)
    requires p != []
    decreases |s|
  {
    if |s| < |p| then s
    else if s[..|p|] == p then q + Replace(s[|p|..], p, q)
    else [s[0]] + Replace(s[1..], p, q)
  }

  /** Text without the pattern is returned unchanged. */
  lemma {:induction false} ReplaceNoOcc(s: string, p: string, q: string)
    requires p != [] && NoOcc(s, p)
    ensures Replace(s, p, q) == s
    decreases |s|
  {
    if |s| >= |p| {
      assert !OccursAt(s, p, 0);
      forall i | 0 <= i <= |s[1..]| - |p| ensures !OccursAt(s[1..], p, i) {
        assert !OccursAt(s, p, i + 1);
        assert s[1..][i..i + |p|] == s[i + 1..i + 1 + |p|];
      }
      ReplaceNoOcc(s[1..], p, q);
    }
  }

  /** Replacing in a concatenation works part by part when no occurrence crosses the seam. */
  lemma {:induction false} ReplaceAppend(a: string, b: string, p: string, q: string)
    requires p != [] && NoStraddle(a, b, p)
    ensures Replace(a + b, p, q) == Replace(a, p, q) + Replace(b, p, q)
    decreases |a|
  {
    var s := a + b;
    if a == [] {
      assert s == b;
    } else if |s| < |p| {
      ReplaceShort(a, p, q);
      ReplaceShort(b, p, q);
    } else if s[..|p|] == p {
      assert OccursAt(s, p, 0);
      assert |p| <= |a|;
      assert a[..|p|] == p;
      assert s[|p|..] == a[|p|..] + b;
      StraddleDrop(a, b, p, |p|);
      ReplaceAppend(a[|p|..], b, p, q);
    } else {
      assert |a| >= |p| ==> a[..|p|] == s[..|p|];
      assert s[1..] == a[1..] + b;
      StraddleDrop(a, b, p, 1);
      ReplaceAppend(a[1..], b, p, q);
      if |a| < |p| {
        ReplaceShort(a, p, q);
        ReplaceShort(a[1..], p, q);
      }
    }
  }

  lemma ReplaceShort(s: string, p: string, q: string)
    requires p != [] && |s| < |p|
    ensures Replace(s, p, q) == s
  {
  }

  lemma StraddleDrop(a: string, b: string, p: string, k: nat)
    requires k <= |a| && NoStraddle(a, b, p)
    ensures NoStraddle(a[k..], b, p)
  {
    forall i | 0 <= i < |a[k..]| < i + |p|
      ensures !OccursAt(a[k..] + b, p, i)
    {
      assert !OccursAt(a + b, p, i + k);
      if i + |p| <= |a[k..] + b| {
        assert (a[k..] + b)[i..i + |p|] == (a + b)[i + k..i + k + |p|] by {
          assert a[k..] + b == (a + b)[k..];
        }
      }
    }
  }

  /** A seam is safe when the left part's last character cannot begin or continue the pattern. */
  lemma NoStraddleLeftEnd(a: string, b: string, p: string)
    requires a != [] && p != [] && a[|a| - 1] !in p[..|p| - 1]
    ensures NoStraddle(a, b, p)
  {
    forall i | 0 <= i < |a| < i + |p| ensures !OccursAt(a + b, p, i) {
      if i + |p| <= |a + b| {
        assert (a + b)[i..i + |p|][|a| - 1 - i] == a[|a| - 1];
        assert p[..|p| - 1][|a| - 1 - i] == p[|a| - 1 - i];
      }
    }
  }

  /** A seam is safe when the right part's first character cannot continue the pattern. */
  lemma NoStraddleRightStart(a: string, b: string, p: string)
    requires b != [] && p != [] && b[0] !in p[1..]
    ensures NoStraddle(a, b, p)
  {
    forall i | 0 <= i < |a| < i + |p| ensures !OccursAt(a + b, p, i) {
      if i + |p| <= |a + b| {
        assert (a + b)[i..i + |p|][|a| - i] == b[0];
        assert p[1..][|a| - i - 1] == p[|a| - i];
      }
    }
  }

  /** A seam is safe when the left part never holds the pattern's first character. */
  lemma NoStraddleLeftFree(a: string, b: string, p: string)
    requires p != [] && p[0] !in a
    ensures NoStraddle(a, b, p)
  {
    forall i | 0 <= i < |a| < i + |p| ensures !OccursAt(a + b, p, i) {
      if i + |p| <= |a + b| {
        assert (a + b)[i..i + |p|][0] == a[i];
      }
    }
  }

  /** Absence of a pattern is preserved by a safe concatenation. */
  lemma NoStraddleSingle(a: string, b: string, p: string)
    requires |p| == 1
    ensures NoStraddle(a, b, p)
  {
  }

  lemma NoOccAppend(a: string, b: string, p: string)
    requires p != [] && NoOcc(a, p) && NoOcc(b, p) && NoStraddle(a, b, p)
    ensures NoOcc(a + b, p)
  {
    forall i | 0 <= i <= |a + b| - |p| ensures !OccursAt(a + b, p, i) {
      if i + |p| <= |a| {
        assert (a + b)[i..i + |p|] == a[i..i + |p|];
        assert !OccursAt(a, p, i);
      } else if i >= |a| {
        assert (a + b)[i..i + |p|] == b[i - |a|..i - |a| + |p|];
        assert !OccursAt(b, p, i - |a|);
      }
    }
  }

  /** The replaced text begins with the replacement when the input begins with the pattern. */
  lemma ReplacePrefix(s: string, p: string, q: string)
    requires p != []
    ensures Replace(p + s, p, q) == q + Replace(s, p, q)
  {
    assert (p + s)[..|p|] == p;
    assert (p + s)[|p|..] == s;
  }

  // ---------------------------------------------------------------------------
  // regexp.MustCompile(`: (.*)`).ReplaceAllString(s, `: [$1]`)
  // ---------------------------------------------------------------------------

  /** Length of the first line of `s`: the index of its first newline, or |s|. */
  function LineEnd(s: string): (k: nat)
    ensures k <= |s|
    ensures forall i :: 0 <= i < k ==> s[i] != '\n'
    ensures k < |s| ==> s[k] == '\n'
  {
    if s == [] || s[0] == '\n' then 0 else 1 + LineEnd(s[1..])
  }

  /** The leftmost `": "` of each line, and the rest of that line, becomes `": [" + rest + "]"`:
      `.` does not match a newline, and the scan resumes where the previous match ended. */
  function ListWrap(s: string): (r: string)
    decreases |s|
  {
    if s == [] then []
    else if |s| >= 2 && s[..2] == ": " then
      var k := LineEnd(s[2..]);
      ": [" + s[2..2 + k] + "]" + ListWrap(s[2 + k..])
    else [s[0]] + ListWrap(s[1..])
  }

  /** A text without `": "` is not rewritten. */
  lemma {:induction false} ListWrapNoOcc(s: string)
    requires NoOcc(s, ": ")
    ensures ListWrap(s) == s
    decreases |s|
  {
    if s != [] {
      assert !OccursAt(s, ": ", 0);
      forall i | 0 <= i <= |s[1..]| - 2 ensures !OccursAt(s[1..], ": ", i) {
        assert !OccursAt(s, ": ", i + 1);
        assert s[1..][i..i + 2] == s[i + 1..i + 3];
      }
      ListWrapNoOcc(s[1..]);
    }
  }

  /** The rewrite works line by line: it distributes over a concatenation at a line boundary. */
  lemma {:induction false} ListWrapAppend(a: string, b: string)
    requires a == [] || a[|a| - 1] == '\n'
    ensures ListWrap(a + b) == ListWrap(a) + ListWrap(b)
    decreases |a|
  {
    var s := a + b;
    if a == [] {
      assert s == b;
    } else if |s| >= 2 && s[..2] == ": " {
      assert s[0] == ':' && s[1] == ' ';
      assert forall i | 0 <= i < |a| :: s[i] == a[i];
      assert |a| >= 3;
      assert a[..2] == s[..2];
      assert s[2..] == a[2..] + b;
      var k := LineEnd(s[2..]);
      LineEndPrefix(a[2..], b);
      assert 2 + k < |a|;
      assert s[2..2 + k] == a[2..2 + k];
      assert s[2 + k..] == a[2 + k..] + b;
      var head := ": [" + a[2..2 + k] + "]";
      assert ListWrap(s) == head + ListWrap(a[2 + k..] + b);
      assert ListWrap(a) == head + ListWrap(a[2 + k..]);
      ListWrapAppend(a[2 + k..], b);
      Assoc(head, ListWrap(a[2 + k..]), ListWrap(b));
    } else {
      assert |a| >= 2 ==> a[..2] == s[..2];
      assert s[1..] == a[1..] + b;
      assert ListWrap(s) == [a[0]] + ListWrap(a[1..] + b);
      assert ListWrap(a) == [a[0]] + ListWrap(a[1..]);
      ListWrapAppend(a[1..], b);
      Assoc([a[0]], ListWrap(a[1..]), ListWrap(b));
    }
  }

  lemma LineEndPrefix(a: string, b: string)
    requires a != [] && a[|a| - 1] == '\n'
    ensures LineEnd(a + b) == LineEnd(a) < |a|
  {
    if a[0] != '\n' {
      assert (a + b)[1..] == a[1..] + b;
      LineEndPrefix(a[1..], b);
    }
  }

  /** One field line `x: y` is rewritten to `x: [y]` when `x` holds no `": "` of its own. */
  lemma {:induction false} ListWrapField(x: string, y: string)
    requires NoOcc(x + ":", ": ") && '\n' !in y
    ensures ListWrap(x + ": " + y + "\n") == x + ": [" + y + "]\n"
    decreases |x|
  {
    var s := x + ": " + y + "\n";
    if x == [] {
      assert s[..2] == ": ";
      assert s[2..] == y + "\n";
      LineEndOfLine(y);
      assert s[2..2 + |y|] == y;
      assert s[2 + |y|..] == "\n";
      assert ListWrap("\n") == "\n" by { assert "\n"[1..] == []; }
    } else {
      assert !OccursAt(x + ":", ": ", 0);
      assert s[..2] != ": " by {
        if |x| == 1 { assert s[1] == ':'; } else { assert s[..2] == (x + ":")[..2]; }
      }
      forall i | 0 <= i <= |x[1..] + ":"| - 2 ensures !OccursAt(x[1..] + ":", ": ", i) {
        assert !OccursAt(x + ":", ": ", i + 1);
        assert (x[1..] + ":")[i..i + 2] == (x + ":")[i + 1..i + 3];
      }
      assert s[1..] == x[1..] + ": " + y + "\n";
      ListWrapField(x[1..], y);
    }
  }

  lemma LineEndOfLine(y: string)
    requires '\n' !in y
    ensures LineEnd(y + "\n") == |y|
  {
    if y != [] {
      assert (y + "\n")[1..] == y[1..] + "\n";
      LineEndOfLine(y[1..]);
    }
  }

  /** The rewrite only inserts brackets: a character other than `[` and `]` that is absent stays absent. */
  lemma {:induction false} ListWrapAbsent(s: string, c: char)
    requires c !in s && c != '[' && c != ']'
    ensures c !in ListWrap(s)
    decreases |s|
  {
    if s != [] {
      if |s| >= 2 && s[..2] == ": " {
        var k := LineEnd(s[2..]);
        assert c !in s[2..2 + k] && c !in s[2 + k..] by {
          assert s == s[..2] + s[2..2 + k] + s[2 + k..];
        }
        ListWrapAbsent(s[2 + k..], c);
      } else {
        assert c !in s[1..] by { assert s == [s[0]] + s[1..]; }
        ListWrapAbsent(s[1..], c);
      }
    }
  }

  /** Deleting a one-character pattern leaves none of it behind. */
  lemma {:induction false} ReplaceDeletes(s: string, c: char)
    ensures c !in Replace(s, [c], [])
    decreases |s|
  {
    if s != [] {
      ReplaceDeletes(s[1..], c);
    }
  }

  /** A character absent from the input and from the replacement is absent from the result. */
  lemma {:induction false} ReplaceAbsent(s: string, p: string, q: string, c: char)
    requires p != [] && c !in s && c !in q
    ensures c !in Replace(s, p, q)
    decreases |s|
  {
    if |s| >= |p| {
      if s[..|p|] == p {
        assert c !in s[|p|..] by { assert s == s[..|p|] + s[|p|..]; }
        ReplaceAbsent(s[|p|..], p, q, c);
      } else {
        assert c !in s[1..] by { assert s == [s[0]] + s[1..]; }
        ReplaceAbsent(s[1..], p, q, c);
      }
    }
  }

  // ---------------------------------------------------------------------------
  // strings.TrimRight(s, ",")
  // ---------------------------------------------------------------------------

  /** strings.TrimRight with a one-character cut set: drop every trailing `c`. */
  function TrimRight(s: string, c: char): (r: string)
    ensures |r| <= |s| && r == s[..|r|]
    ensures r == [] || r[|r| - 1] != c
    ensures forall i :: |r| <= i < |s| ==> s[i] == c
  {
    if s != [] && s[|s| - 1] == c then TrimRight(s[..|s| - 1], c) else s
  }

  /** Trimming stops at the first character other than `c`. */
  lemma TrimRightStops(s: string, c: char)
    requires s == [] || s[|s| - 1] != c
    ensures TrimRight(s, c) == s
  {
  }

  /** Exactly one trailing `c` goes when the text before it does not end in `c`. */
  lemma TrimRightOne(s: string, c: char)
    requires s != [] && s[|s| - 1] != c
    ensures TrimRight(s + [c], c) == s
  {
    assert (s + [c])[..|s|] == s;
  }

  // ---------------------------------------------------------------------------
  // strconv.Atoi with its error discarded
  // ---------------------------------------------------------------------------

  predicate IsDigit(c: char) { '0' <= c <= '9' }

  predicate AllDigits(d: string) {
    forall i :: 0 <= i < |d| ==> IsDigit(d[i])
  }

  function DigitsValue(d: string): (n: nat)
    requires AllDigits(d)
  {
    if d == [] then 0 else 10 * DigitsValue(d[..|d| - 1]) + (d[|d| - 1] as int - '0' as int)
  }

  predicate HasSign(s: string) { s != [] && (s[0] == '+' || s[0] == '-') }

  /** The digits after an optional sign. */
  function Magnitude(s: string): string {
    if HasSign(s) then s[1..] else s
  }

  /** A well-formed decimal: an optional sign followed by at least one decimal digit. */
  predicate IsDecimal(s: string) {
    Magnitude(s) != [] && AllDigits(Magnitude(s))
  }

  predicate Negative(s: string) { s != [] && s[0] == '-' }

  const MinInt64: int := -0x8000_0000_0000_0000
  const MaxInt64: int := 0x7FFF_FFFF_FFFF_FFFF
  const MaxUint64: int := 0xFFFF_FFFF_FFFF_FFFF

  /** Some leading run of digits already exceeds the uint64 maximum. */
  predicate Overflows(m: string) {
    exists j :: 0 < j <= |m| && AllDigits(m[..j]) && DigitsValue(m[..j]) > MaxUint64
  }

  /** The outcome of strconv.ParseUint in base 10 with 64 bits. */
  datatype Scan = Value(n: nat) | SyntaxError | RangeError

  function Digit(c: char): nat
    requires IsDigit(c)
  {
    c as int - '0' as int
  }

  /** ParseUint's loop, from the running value n: it reads left to right, stops with a syntax
      error at the first character that is not a digit, and with a range error at the first
      digit that takes the value past the uint64 maximum, whatever follows that digit. (Its
      two tests, `n >= cutoff` and the wrapped sum `n1 < n`, together say 10 * n + d > MaxUint64.) */
  function ScanDigits(s: string, n: nat): Scan
    decreases |s|
  {
    if s == [] then Value(n)
    else if !IsDigit(s[0]) then SyntaxError
    else if 10 * n + Digit(s[0]) > MaxUint64 then RangeError
    else ScanDigits(s[1..], 10 * n + Digit(s[0]))
  }

  /** Saturation to the int64 range. */
  function Clamp(v: int): (r: int)
    ensures MinInt64 <= r <= MaxInt64
    ensures MinInt64 <= v <= MaxInt64 ==> r == v
  {
    if v < MinInt64 then MinInt64 else if v > MaxInt64 then MaxInt64 else v
  }

  /** strconv.Atoi(s) on a 64-bit target, the error being ignored. The digits after an
      optional sign are scanned as ParseUint scans them: a syntax error (the empty text and a
      bare sign included) gives 0; a range error, or a value beyond int64, gives the bound of
      int64 on the side of the sign. Atoi's fast path for texts under 19 bytes cannot
      overflow and gives the same results. */
  function Atoi(s: string): (n: int)
    ensures MinInt64 <= n <= MaxInt64
  {
    if Magnitude(s) == [] then 0
    else match ScanDigits(Magnitude(s), 0)
      case SyntaxError => 0
      case RangeError => if Negative(s) then MinInt64 else MaxInt64
      case Value(u) => Clamp(if Negative(s) then 0 - u else u)
  }

  /** A leading run of digits has a value no larger than the whole run. */
  lemma {:induction false} DigitsPrefix(d: string, i: nat)
    requires AllDigits(d) && i <= |d|
    ensures AllDigits(d[..i]) && DigitsValue(d[..i]) <= DigitsValue(d)
    decreases |d|
  {
    if i < |d| {
      var init := d[..|d| - 1];
      assert init[..i] == d[..i];
      DigitsPrefix(init, i);
    } else {
      assert d[..i] == d;
    }
  }

  /** Scanning past a run of digits that does not overflow resumes from its value. */
  lemma {:induction false} ScanSplit(p: string, s: string)
    requires AllDigits(p) && DigitsValue(p) <= MaxUint64
    ensures ScanDigits(p + s, 0) == ScanDigits(s, DigitsValue(p))
    decreases |p|
  {
    if p == [] {
      assert p + s == s;
    } else {
      var q, c := p[..|p| - 1], p[|p| - 1];
      assert p + s == q + ([c] + s);
      ScanSplit(q, [c] + s);
      assert ([c] + s)[1..] == s;
    }
  }

  lemma {:induction false} ScanOverflow(m: string, j: nat)
    requires 0 < j <= |m| && AllDigits(m[..j]) && DigitsValue(m[..j]) > MaxUint64
    ensures ScanDigits(m, 0) == RangeError
    decreases j
  {
    var q := m[..j - 1];
    assert m[..j][..j - 1] == q;
    if j > 1 && DigitsValue(q) > MaxUint64 {
      ScanOverflow(m, j - 1);
    } else {
      assert m == q + m[j - 1..];
      ScanSplit(q, m[j - 1..]);
      assert m[..j][j - 1] == m[j - 1];
    }
  }

  lemma {:induction false} FirstNonDigit(m: string) returns (i: nat)
    requires !AllDigits(m)
    ensures i < |m| && !IsDigit(m[i]) && AllDigits(m[..i])
  {
    if !IsDigit(m[0]) {
      i := 0;
    } else {
      var k := FirstNonDigit(m[1..]);
      i := k + 1;
      assert m[..i] == [m[0]] + m[1..][..k];
    }
  }

  lemma DigitsOverflow(m: string)
    requires AllDigits(m) && DigitsValue(m) > MaxUint64
    ensures Overflows(m)
  {
    assert m[..|m|] == m;
  }

  lemma ScanFits(m: string)
    requires AllDigits(m) && DigitsValue(m) <= MaxUint64
    ensures ScanDigits(m, 0) == Value(DigitsValue(m))
    ensures !Overflows(m)
  {
    assert m + [] == m;
    ScanSplit(m, []);
    forall j | 0 < j <= |m| ensures DigitsValue(m[..j]) <= MaxUint64 {
      DigitsPrefix(m, j);
    }
  }

  lemma ScanSyntax(m: string)
    requires !AllDigits(m) && !Overflows(m)
    ensures ScanDigits(m, 0) == SyntaxError
  {
    var i := FirstNonDigit(m);
    assert m == m[..i] + m[i..];
    ScanSplit(m[..i], m[i..]);
  }

  /** What ParseUint's scan yields, stated without the scan: a range error exactly when some
      leading run of digits overflows, the value exactly for digits only that fit, and a
      syntax error otherwise. */
  lemma ScanOutcome(m: string)
    ensures ScanDigits(m, 0) == RangeError <==> Overflows(m)
    ensures ScanDigits(m, 0).Value? <==> AllDigits(m) && DigitsValue(m) <= MaxUint64
    ensures ScanDigits(m, 0).Value? ==> ScanDigits(m, 0).n == DigitsValue(m)
  {
    if AllDigits(m) && DigitsValue(m) > MaxUint64 {
      DigitsOverflow(m);
    }
    if Overflows(m) {
      var j :| 0 < j <= |m| && AllDigits(m[..j]) && DigitsValue(m[..j]) > MaxUint64;
      ScanOverflow(m, j);
      if AllDigits(m) {
        DigitsPrefix(m, j);
      }
    } else if AllDigits(m) {
      ScanFits(m);
    } else {
      ScanSyntax(m);
    }
  }

  /** Atoi, stated without the scan: a well-formed decimal gives its signed value saturated to
      int64; otherwise text whose leading digits already overflow gives the bound on the side
      of its sign, and any other text gives 0. */
  lemma AtoiCases(s: string)
    ensures IsDecimal(s) ==>
      Atoi(s) == Clamp(if Negative(s) then 0 - DigitsValue(Magnitude(s)) else DigitsValue(Magnitude(s)))
    ensures !IsDecimal(s) && Overflows(Magnitude(s)) ==>
      Atoi(s) == (if Negative(s) then MinInt64 else MaxInt64)
    ensures !IsDecimal(s) && !Overflows(Magnitude(s)) ==> Atoi(s) == 0
  {
    var m := Magnitude(s);
    ScanOutcome(m);
    if IsDecimal(s) && DigitsValue(m) > MaxUint64 {
      assert m[..|m|] == m;
      assert Overflows(m);
    }
  }

  /** The scan stops at the first digit that overflows: whatever follows a run of digits worth
      more than the uint64 maximum, Atoi gives the int64 bound on the side of the sign. */
  lemma AtoiOverflowFirst(d: string, t: string)
    requires AllDigits(d) && DigitsValue(d) > MaxUint64
    ensures Atoi(d + t) == MaxInt64
    ensures Atoi("-" + d + t) == MinInt64
  {
    var m := d + t;
    assert m[..|d|] == d;
    assert d != [];
    ScanOverflow(m, |d|);
    assert Magnitude(m) == m;
    assert Magnitude("-" + d + t) == m;
  }

  /** A digit string has a positive value exactly when one of its digits is not '0'. */
  lemma {:induction false} DigitsPositive(d: string)
    requires AllDigits(d)
    ensures DigitsValue(d) > 0 <==> exists i :: 0 <= i < |d| && d[i] != '0'
  {
    if d != [] {
      var init := d[..|d| - 1];
      DigitsPositive(init);
      if DigitsValue(d) > 0 && d[|d| - 1] == '0' {
        var i :| 0 <= i < |init| && init[i] != '0';
        assert d[i] != '0';
      }
      if exists i :: 0 <= i < |d| && d[i] != '0' {
        var i :| 0 <= i < |d| && d[i] != '0';
        if i < |d| - 1 { assert init[i] != '0'; }
      }
    }
  }

  /** The scale texts Atoi reads as a positive number: no minus sign, and either a
      well-formed decimal with a non-zero digit or leading digits that overflow. */
  predicate ReadsPositive(s: string) {
    && !Negative(s)
    && (|| (IsDecimal(s) && exists i :: 0 <= i < |Magnitude(s)| && Magnitude(s)[i] != '0')
        || Overflows(Magnitude(s)))
  }

  /** Atoi yields a positive number exactly for the texts of ReadsPositive; any other text,
      the empty text included, yields at most 0. */
  lemma AtoiPositive(s: string)
    ensures Atoi(s) > 0 <==> ReadsPositive(s)
  {
    AtoiCases(s);
    var m := Magnitude(s);
    if IsDecimal(s) {
      DigitsPositive(m);
      if Overflows(m) {
        var j :| 0 < j <= |m| && AllDigits(m[..j]) && DigitsValue(m[..j]) > MaxUint64;
        DigitsPrefix(m, j);
      }
    }
  }

  /** strings.Count for a one-character separator. */
  function CountChar(s: string, c: char): nat {
    if s == [] then 0 else CountChar(s[..|s| - 1], c) + (if s[|s| - 1] == c then 1 else 0)
  }

  lemma {:induction false} CountCharAppend(a: string, b: string, c: char)
    ensures CountChar(a + b, c) == CountChar(a, c) + CountChar(b, c)
    decreases |b|
  {
    if b == [] {
      assert a + b == a;
    } else {
      assert (a + b)[..|a + b| - 1] == a + b[..|b| - 1];
      assert (a + b)[|a + b| - 1] == b[|b| - 1];
      CountCharAppend(a, b[..|b| - 1], c);
    }
  }

  lemma {:induction false} CountCharAbsent(s: string, c: char)
    requires c !in s
    ensures CountChar(s, c) == 0
  {
    if s != [] {
      assert c !in s[..|s| - 1] by { assert s == s[..|s| - 1] + [s[|s| - 1]]; }
      CountCharAbsent(s[..|s| - 1], c);
    }
  }

  lemma UpperOfLower(s: string)
    ensures ToUpper(ToLower(s)) == ToUpper(s)
  {
    forall i | 0 <= i < |s| ensures ToUpper(ToLower(s))[i] == ToUpper(s)[i] {
      var c := s[i];
      assert IsUpper(c) ==> UpperChar(LowerChar(c)) == c;
    }
  }

  lemma OneLine(body: string)
    requires '\n' !in body
    ensures CountChar(body + "\n", '\n') == 1
  {
    CountCharAbsent(body, '\n');
    CountCharAppend(body, "\n", '\n');
  }
}
