/** Strings as the printers of the system use them: dictionary order, joining and splitting, fixed-width numbers. */
module Text {

  datatype Option<+T> = None | Some(value: T)

  // ---------------------------------------------------------------------------------------------
  // Case, over ASCII

  function LowerChar(c: char): char {
    if 'A' <= c <= 'Z' then c - 'A' + 'a' else c
  }

  function Lower(s: string): string {
    seq(|s|, i requires 0 <= i < |s| => LowerChar(s[i]))
  }

  // ---------------------------------------------------------------------------------------------
  // Dictionary order

  predicate LexLess(a: string, b: string) {
    b != [] && (a == [] || a[0] < b[0] || (a[0] == b[0] && LexLess(a[1..], b[1..])))
  }

  lemma {:induction false} LexTrichotomy(a: string, b: string)
    ensures LexLess(a, b) || a == b || LexLess(b, a)
    ensures !(LexLess(a, b) && LexLess(b, a))
    ensures !LexLess(a, a)
  {
    if a != [] && b != [] && a[0] == b[0] {
      LexTrichotomy(a[1..], b[1..]);
      assert a[1..] == b[1..] ==> a == [a[0]] + a[1..] == [b[0]] + b[1..] == b;
    }
    if a != [] { LexTrichotomy(a[1..], a[1..]); }
  }

  lemma {:induction false} LexTransitive(a: string, b: string, c: string)
    requires LexLess(a, b) && LexLess(b, c)
    ensures LexLess(a, c)
  {
    if a != [] && a[0] == b[0] && b[0] == c[0] {
      LexTransitive(a[1..], b[1..], c[1..]);
    }
  }

  /** Equal-length prefixes are compared first, then what follows them. */
  lemma {:induction false} LexConcat(a: string, b: string, s: string, t: string)
    requires |a| == |b|
    ensures LexLess(a + s, b + t) <==> LexLess(a, b) || (a == b && LexLess(s, t))
    ensures a + s == b + t <==> a == b && s == t
  {
    if a == [] {
      assert a + s == s && b + t == t;
    } else {
      assert (a + s)[1..] == a[1..] + s && (b + t)[1..] == b[1..] + t;
      LexConcat(a[1..], b[1..], s, t);
      assert a == [a[0]] + a[1..] && b == [b[0]] + b[1..];
      assert a + s == b + t ==> (a + s)[0] == (b + t)[0] && (a + s)[1..] == (b + t)[1..];
    }
  }

  // ---------------------------------------------------------------------------------------------
  // Replacing

  /** Replace every occurrence of one character. */
  function Replace(s: string, c: char, sub: string): string {
    if s == "" then "" else (if s[0] == c then sub else [s[0]]) + Replace(s[1..], c, sub)
  }

  lemma {:induction false} ReplaceConcat(a: string, b: string, c: char, sub: string)
    ensures Replace(a + b, c, sub) == Replace(a, c, sub) + Replace(b, c, sub)
  {
    if a == "" {
      assert a + b == b;
    } else {
      assert (a + b)[1..] == a[1..] + b;
      ReplaceConcat(a[1..], b, c, sub);
    }
  }

  lemma {:induction false} NothingToReplace(s: string, c: char, sub: string)
    requires c !in s
    ensures Replace(s, c, sub) == s
  {
    if s != "" {
      NothingToReplace(s[1..], c, sub);
      assert [s[0]] + s[1..] == s;
    }
  }

  // ---------------------------------------------------------------------------------------------
  // Fixed-width numbers

  function Digit(d: nat): (c: char)
    requires d < 10
  {
    '0' + d as char
  }

  function Power(base: nat, e: nat): nat {
    if e == 0 then 1 else base * Power(base, e - 1)
  }

  /** Decimal digits padded with zeros to a fixed width. */
  function Padded(v: nat, width: nat): (s: string)
    ensures |s| == width
  {
    if width == 0 then "" else Padded(v / 10, width - 1) + [Digit(v % 10)]
  }

  /** The value of a run of digits. */
  function ReadNumber(s: string): Option<nat> {
    if s == "" then Some(0)
    else
      var front, last := ReadNumber(s[..|s| - 1]), s[|s| - 1];
      if front.None? || !('0' <= last <= '9') then None else Some(10 * front.value + (last as nat - '0' as nat))
  }

  lemma {:induction false} PaddedOrder(u: nat, v: nat, width: nat)
    requires u < Power(10, width) && v < Power(10, width)
    ensures LexLess(Padded(u, width), Padded(v, width)) <==> u < v
    ensures Padded(u, width) == Padded(v, width) <==> u == v
  {
    if width > 0 {
      PaddedOrder(u / 10, v / 10, width - 1);
      LexConcat(Padded(u / 10, width - 1), Padded(v / 10, width - 1), [Digit(u % 10)], [Digit(v % 10)]);
    }
  }

  // ---------------------------------------------------------------------------------------------
  // Joining and splitting

  function Join(parts: seq<string>, separator: string): string {
    if parts == [] then ""
    else if |parts| == 1 then parts[0]
    else parts[0] + separator + Join(parts[1..], separator)
  }

  /** Split at every occurrence of one element; always at least one part. */
  function Split<T(==)>(s: seq<T>, at: T): (parts: seq<seq<T>>)
    ensures parts != []
  {
    if s == [] then [[]]
    else
      var rest := Split(s[1..], at);
      if s[0] == at then [[]] + rest else [[s[0]] + rest[0]] + rest[1..]
  }

  lemma {:induction false} SplitAfterPrefix<T>(p: seq<T>, s: seq<T>, at: T)
    requires at !in p
    ensures Split(p + s, at) == [p + Split(s, at)[0]] + Split(s, at)[1..]
  {
    if p == [] {
      assert p + s == s && p + Split(s, at)[0] == Split(s, at)[0];
    } else {
      assert (p + s)[1..] == p[1..] + s;
      SplitAfterPrefix(p[1..], s, at);
      assert [p[0]] + (p[1..] + Split(s, at)[0]) == p + Split(s, at)[0];
    }
  }

  lemma {:induction false} SplitUndoesJoin(parts: seq<string>, at: char)
    requires parts != []
    requires forall p <- parts :: at !in p
    ensures Split(Join(parts, [at]), at) == parts
  {
    if |parts| == 1 {
      SplitAfterPrefix(parts[0], "", at);
      assert parts[0] + "" == parts[0];
    } else {
      var rest := Join(parts[1..], [at]);
      SplitUndoesJoin(parts[1..], at);
      SplitAfterPrefix(parts[0], [at] + rest, at);
      assert ([at] + rest)[1..] == rest;
      assert parts[0] + [at] + rest == parts[0] + ([at] + rest);
      assert parts[0] + "" == parts[0];
    }
  }
}
