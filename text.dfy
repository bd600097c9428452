/**
 * String operations the source relies on: JavaScript `String.prototype.trim`,
 * decimal rendering of integers (`${n}`, Python `str(n)`), and
 * `Array.prototype.join` with the matching split used to read a joined text back.
 */
module Text {

  /** The characters `trim` removes: ECMAScript WhiteSpace and LineTerminator. */
  predicate IsJsSpace(c: char)
  {
    c == '\t' || c == '\n' || c == '\U{000B}' || c == '\U{000C}' || c == '\r' || c == ' '
    || c == '\U{00A0}' || c == '\U{1680}' || ('\U{2000}' <= c <= '\U{200A}')
    || c == '\U{2028}' || c == '\U{2029}' || c == '\U{202F}' || c == '\U{205F}'
    || c == '\U{3000}' || c == '\U{FEFF}'
  }

  /** `trimStart`: drops leading white space. */
  function TrimStart(s: string): string
  {
    if s == [] || !IsJsSpace(s[0]) then s else TrimStart(s[1..])
  }

  /** `trimEnd`: drops trailing white space. */
  function TrimEnd(s: string): string
  {
    if s == [] || !IsJsSpace(s[|s| - 1]) then s else TrimEnd(s[..|s| - 1])
  }

  /** `s.trim()`. */
  function Trim(s: string): string
  {
    TrimEnd(TrimStart(s))
  }

  /** `trimStart` keeps a suffix that does not start with white space and drops only white space. */
  lemma {:induction false} TrimStartShape(s: string)
    ensures var r := TrimStart(s);
            && |r| <= |s| && r == s[|s| - |r|..]
            && (r == [] || !IsJsSpace(r[0]))
            && forall i :: 0 <= i < |s| - |r| ==> IsJsSpace(s[i])
  {
    if s != [] && IsJsSpace(s[0]) {
      TrimStartShape(s[1..]);
    }
  }

  /** `trimEnd` keeps a prefix that does not end with white space and drops only white space. */
  lemma {:induction false} TrimEndShape(s: string)
    ensures var r := TrimEnd(s);
            && |r| <= |s| && r == s[..|r|]
            && (r == [] || !IsJsSpace(r[|r| - 1]))
            && forall i :: |r| <= i < |s| ==> IsJsSpace(s[i])
  {
    if s != [] && IsJsSpace(s[|s| - 1]) {
      TrimEndShape(s[..|s| - 1]);
    }
  }

  /**
   * `trim` keeps one contiguous stretch of its input, which neither starts
   * nor ends with white space, and drops only white space around it.
   */
  lemma TrimShape(s: string)
    ensures exists a, b :: 0 <= a <= b <= |s| && Trim(s) == s[a..b] &&
              (forall i :: 0 <= i < a ==> IsJsSpace(s[i])) &&
              (forall i :: b <= i < |s| ==> IsJsSpace(s[i]))
    ensures Trim(s) == [] || (!IsJsSpace(Trim(s)[0]) && !IsJsSpace(Trim(s)[|Trim(s)| - 1]))
  {
    TrimStartShape(s);
    TrimEndShape(TrimStart(s));
    StripShape(s, TrimStart(s), Trim(s), IsJsSpace);
  }

  /**
   * Dropping a run of `drop` characters from the front of `s` and then from
   * the back of what remains leaves a middle stretch of `s`.
   */
  lemma StripShape(s: string, t: string, r: string, drop: char -> bool)
    requires |t| <= |s| && t == s[|s| - |t|..] && forall i :: 0 <= i < |s| - |t| ==> drop(s[i])
    requires t == [] || !drop(t[0])
    requires |r| <= |t| && r == t[..|r|] && forall i :: |r| <= i < |t| ==> drop(t[i])
    requires r == [] || !drop(r[|r| - 1])
    ensures exists a, b :: 0 <= a <= b <= |s| && r == s[a..b] &&
              (forall i :: 0 <= i < a ==> drop(s[i])) &&
              (forall i :: b <= i < |s| ==> drop(s[i]))
    ensures r == [] || (!drop(r[0]) && !drop(r[|r| - 1]))
  {
    var a := |s| - |t|;
    var b := a + |r|;
    assert r == s[a..b];
    assert r != [] ==> r[0] == t[0];
    forall i | b <= i < |s| ensures drop(s[i]) {
      assert s[i] == t[i - a];
    }
  }

  /** A text made of white space only trims to the empty key. */
  lemma {:induction false} TrimAllSpace(s: string)
    requires forall i :: 0 <= i < |s| ==> IsJsSpace(s[i])
    ensures Trim(s) == ""
  {
    TrimStartAllSpace(s);
  }

  lemma {:induction false} TrimStartAllSpace(s: string)
    requires forall i :: 0 <= i < |s| ==> IsJsSpace(s[i])
    ensures TrimStart(s) == []
  {
    if s != [] {
      TrimStartAllSpace(s[1..]);
    }
  }

  /** A text without surrounding white space is unchanged by `trim`. */
  lemma TrimKeepsClean(s: string)
    requires s == [] || (!IsJsSpace(s[0]) && !IsJsSpace(s[|s| - 1]))
    ensures Trim(s) == s
  {
  }

  function DigitChar(d: nat): (c: char)
    requires d < 10
    ensures '0' <= c <= '9'
  {
    ['0', '1', '2', '3', '4', '5', '6', '7', '8', '9'][d]
  }

  /** Decimal digits of a natural number, most significant first, no leading zero. */
  function NatToString(n: nat): (s: string)
    ensures |s| >= 1
    ensures forall i :: 0 <= i < |s| ==> '0' <= s[i] <= '9'
    ensures n >= 10 ==> s[0] != '0'
  {
    if n < 10 then [DigitChar(n)] else NatToString(n / 10) + [DigitChar(n % 10)]
  }

  /** `${n}` in TypeScript and `str(n)` in Python for an integer. */
  function IntToString(n: int): (s: string)
    ensures |s| >= 1
    ensures n < 0 <==> s[0] == '-'
    ensures '0' <= s[|s| - 1] <= '9'
  {
    if n < 0 then "-" + NatToString(-n) else NatToString(n)
  }

  /** Number of occurrences of `c` in `s`. */
  function CountChar(s: string, c: char): nat
  {
    if s == [] then 0 else CountChar(s[..|s| - 1], c) + (if s[|s| - 1] == c then 1 else 0)
  }

  lemma {:induction false} CountCharAppend(a: string, b: string, c: char)
    ensures CountChar(a + b, c) == CountChar(a, c) + CountChar(b, c)
  {
    if b == [] {
      assert a + b == a;
    } else {
      assert (a + b)[..|a + b| - 1] == a + b[..|b| - 1];
      assert (a + b)[|a + b| - 1] == b[|b| - 1];
      CountCharAppend(a, b[..|b| - 1], c);
    }
  }

  /** A string without `c` has no occurrence of it. */
  lemma {:induction false} CountCharAbsent(s: string, c: char)
    requires c !in s
    ensures CountChar(s, c) == 0
  {
    if s != [] {
      assert c !in s[..|s| - 1];
      CountCharAbsent(s[..|s| - 1], c);
    }
  }

  /** Lexicographic (code-unit) order on text, as SQL and JavaScript compare strings. */
  predicate LexLess(a: string, b: string)
  {
    if a == [] then b != []
    else if b == [] then false
    else if a[0] != b[0] then a[0] < b[0]
    else LexLess(a[1..], b[1..])
  }

  /** Comparing two texts that start with equal-length heads compares the heads first, then the tails. */
  lemma {:induction false} LexLessConcat(a: string, b: string, c: string, d: string)
    requires |a| == |c|
    ensures LexLess(a + b, c + d) <==> LexLess(a, c) || (a == c && LexLess(b, d))
  {
    if a == [] {
      assert a + b == b && c + d == d;
    } else {
      assert (a + b)[0] == a[0] && (c + d)[0] == c[0];
      assert (a + b)[1..] == a[1..] + b && (c + d)[1..] == c[1..] + d;
      if a[0] == c[0] {
        LexLessConcat(a[1..], b, c[1..], d);
        assert a == c <==> a[1..] == c[1..] by {
          if a[1..] == c[1..] { assert a == [a[0]] + a[1..] && c == [c[0]] + c[1..]; }
        }
      }
    }
  }

  /** `parts.join(sep)`: the parts with one separator between neighbours. */
  function Join(parts: seq<string>, sep: char): string
  {
    if parts == [] then ""
    else if |parts| == 1 then parts[0]
    else Join(parts[..|parts| - 1], sep) + [sep] + parts[|parts| - 1]
  }

  /** `s.split(sep)`: the maximal separator-free pieces, always at least one. */
  function Split(s: string, sep: char): (parts: seq<string>)
    ensures |parts| >= 1
  {
    if s == [] then [""]
    else
      var init := Split(s[..|s| - 1], sep);
      if s[|s| - 1] == sep then init + [""]
      else init[..|init| - 1] + [init[|init| - 1] + [s[|s| - 1]]]
  }

  /** `Join` adds exactly one separator between neighbouring parts. */
  lemma {:induction false} JoinCount(parts: seq<string>, sep: char)
    requires parts != []
    ensures CountChar(Join(parts, sep), sep) == |parts| - 1 + SumCount(parts, sep)
  {
    if |parts| > 1 {
      var init := parts[..|parts| - 1];
      JoinCount(init, sep);
      CountCharAppend(Join(init, sep) + [sep], parts[|parts| - 1], sep);
      CountCharAppend(Join(init, sep), [sep], sep);
      assert CountChar([sep], sep) == 1 by {
        assert [sep][..0] == [];
      }
    }
  }

  /** Total number of `c` inside the parts themselves. */
  function SumCount(parts: seq<string>, c: char): nat
  {
    if parts == [] then 0 else SumCount(parts[..|parts| - 1], c) + CountChar(parts[|parts| - 1], c)
  }

  /** Split of a text that ends with a separator-free piece extends the last piece. */
  lemma {:induction false} SplitAppendPlain(s: string, t: string, sep: char)
    requires sep !in t
    ensures Split(s + t, sep) == Split(s, sep)[..|Split(s, sep)| - 1] + [Split(s, sep)[|Split(s, sep)| - 1] + t]
  {
    if t == [] {
      assert s + t == s;
      var p := Split(s, sep);
      assert p[|p| - 1] + t == p[|p| - 1];
      InitPlusLast(p);
    } else {
      var t' := t[..|t| - 1];
      var c := t[|t| - 1];
      assert c != sep by {
        assert c in t;
      }
      assert (s + t)[..|s + t| - 1] == s + t';
      assert (s + t)[|s + t| - 1] == c;
      SplitAppendPlain(s, t', sep);
      var p := Split(s, sep);
      var q := Split(s + t', sep);
      assert q == p[..|p| - 1] + [p[|p| - 1] + t'];
      assert q[..|q| - 1] == p[..|p| - 1];
      assert q[|q| - 1] + [c] == p[|p| - 1] + t by {
        assert t == t' + [c];
      }
    }
  }

  /** Splitting a joined text gives the parts back when no part holds the separator. */
  lemma {:induction false} SplitJoin(parts: seq<string>, sep: char)
    requires parts != []
    requires forall i :: 0 <= i < |parts| ==> sep !in parts[i]
    ensures Split(Join(parts, sep), sep) == parts
  {
    if |parts| == 1 {
      SplitAppendPlain("", parts[0], sep);
      assert "" + parts[0] == parts[0];
    } else {
      var init := parts[..|parts| - 1];
      var last := parts[|parts| - 1];
      SplitJoin(init, sep);
      var j := Join(init, sep) + [sep];
      SplitAtSeparator(Join(init, sep), sep);
      SplitAppendPlain(j, last, sep);
      LastPieceExtended(init, last);
      InitPlusLast(parts);
    }
  }

  lemma InitPlusLast<T>(s: seq<T>)
    requires s != []
    ensures s[..|s| - 1] + [s[|s| - 1]] == s
  {
  }

  lemma SplitAtSeparator(s: string, sep: char)
    ensures Split(s + [sep], sep) == Split(s, sep) + [""]
  {
    assert (s + [sep])[..|s|] == s;
  }

  lemma LastPieceExtended(init: seq<string>, t: string)
    ensures (init + [""])[..|init|] + [(init + [""])[|init|] + t] == init + [t]
  {
    assert (init + [""])[..|init|] == init;
    assert "" + t == t;
  }
}
