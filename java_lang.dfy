/** The parts of the Java platform that the ride core relies on, stated as
    functions over Dafny values: 32-bit `int` arithmetic, `String.trim`,
    `String.split(",")`, `String.join(",", ...)`, `Integer.parseInt`,
    `String.valueOf(int)` and `String.hashCode`. */
module JavaLang {

  datatype Option<+T> = None | Some(value: T)

  datatype Result<+T, +E> = Ok(value: T) | Err(error: E)

  const INT_MIN: int := -0x8000_0000
  const INT_MAX: int := 0x7fff_ffff

  /** Java's `int`. */
  newtype int32 = x: int | -0x8000_0000 <= x < 0x8000_0000

  /** Two's-complement wrap-around of a mathematical integer into an `int`. */
  function Wrap32(x: int): (r: int32)
    ensures INT_MIN <= x <= INT_MAX ==> r as int == x
    ensures exists k: int :: r as int == x + k * 0x1_0000_0000
  {
    var m := (x - INT_MIN) % 0x1_0000_0000;
    var k := -((x - INT_MIN) / 0x1_0000_0000);
    assert m + INT_MIN == x + k * 0x1_0000_0000;
    (m + INT_MIN) as int32
  }

  /** `x++` on an `int`: one more, except that the largest value wraps to the smallest. */
  function Increment(x: int32): (r: int32)
    ensures x as int < INT_MAX ==> r as int == x as int + 1
    ensures x as int == INT_MAX ==> r as int == INT_MIN
  {
    Wrap32(x as int + 1)
  }

  // ---------------------------------------------------------------------------
  // String.trim: removes every leading and trailing character whose code is at
  // most U+0020 (space and the control characters).

  predicate IsTrimmed(c: char) { c <= ' ' }

  /** Index of the first character that `trim` keeps; |s| when it keeps none. */
  function TrimStart(s: string): (st: nat)
    ensures st <= |s|
    ensures forall i :: 0 <= i < st ==> IsTrimmed(s[i])
    ensures st < |s| ==> !IsTrimmed(s[st])
  {
    if |s| == 0 || !IsTrimmed(s[0]) then 0 else 1 + TrimStart(s[1..])
  }

  /** Index just past the last character that `trim` keeps; 0 when it keeps none. */
  function TrimEnd(s: string): (len: nat)
    ensures len <= |s|
    ensures forall i :: len <= i < |s| ==> IsTrimmed(s[i])
    ensures 0 < len ==> !IsTrimmed(s[len - 1])
  {
    if |s| == 0 || !IsTrimmed(s[|s| - 1]) then |s| else TrimEnd(s[..|s| - 1])
  }

  function Trim(s: string): (r: string)
    ensures |r| <= |s|
    ensures r == "" <==> forall i :: 0 <= i < |s| ==> IsTrimmed(s[i])
    ensures r != "" ==> !IsTrimmed(r[0]) && !IsTrimmed(r[|r| - 1])
    ensures 0 < |s| && !IsTrimmed(s[0]) && !IsTrimmed(s[|s| - 1]) ==> r == s
    ensures r != "" ==>
              var k := TrimStart(s);
              && k + |r| <= |s| && r == s[k..k + |r|]
              && (forall i :: 0 <= i < k ==> IsTrimmed(s[i]))
              && (forall i :: k + |r| <= i < |s| ==> IsTrimmed(s[i]))
  {
    var st := TrimStart(s);
    if st == |s| then ""
    else
      var r := s[st..TrimEnd(s)];
      assert r == s[st..st + |r|];
      r
  }

  // ---------------------------------------------------------------------------
  // String.split(",") and String.join(",", ...).

  /** The pieces of `s` between its commas, every piece kept: one more piece than commas. */
  function Pieces(s: string): (parts: seq<string>)
    ensures |parts| >= 1
    ensures forall i :: 0 <= i < |parts| ==> ',' !in parts[i]
  {
    if s == "" then [""]
    else if s[0] == ',' then [""] + Pieces(s[1..])
    else
      var rest := Pieces(s[1..]);
      [[s[0]] + rest[0]] + rest[1..]
  }

  /** Drops the empty strings at the end of `parts`. */
  function DropTrailingEmpty(parts: seq<string>): (r: seq<string>)
    ensures |r| <= |parts| && r == parts[..|r|]
    ensures forall i :: |r| <= i < |parts| ==> parts[i] == ""
    ensures r == [] || r[|r| - 1] != ""
  {
    if parts == [] || parts[|parts| - 1] != "" then parts
    else DropTrailingEmpty(parts[..|parts| - 1])
  }

  /** `s.split(",")`: a string without a comma comes back whole (even the empty
      string); otherwise the pieces between commas, less the empty pieces at the end. */
  function Split(s: string): (parts: seq<string>)
    ensures forall i :: 0 <= i < |parts| ==> ',' !in parts[i]
    ensures ',' !in s ==> parts == [s]
    ensures ',' in s ==> parts == [] || parts[|parts| - 1] != ""
  {
    if ',' !in s then [s] else DropTrailingEmpty(Pieces(s))
  }

  /** `String.join(",", parts)`. */
  function Join(parts: seq<string>): (s: string)
  {
    if |parts| == 0 then ""
    else if |parts| == 1 then parts[0]
    else parts[0] + "," + Join(parts[1..])
  }

  lemma {:induction false} PiecesOfCommaFree(p: string)
    requires ',' !in p
    ensures Pieces(p) == [p]
  {
    if p != "" {
      assert p[0] in p;
      PiecesOfCommaFree(p[1..]);
      assert [p[0]] + p[1..] == p;
    }
  }

  lemma {:induction false} PiecesOfCons(p: string, rest: string)
    requires ',' !in p
    ensures Pieces(p + "," + rest) == [p] + Pieces(rest)
  {
    if p == "" {
      assert p + "," + rest == [','] + rest;
      assert (p + "," + rest)[1..] == rest;
    } else {
      assert (p + "," + rest)[1..] == p[1..] + "," + rest;
      PiecesOfCons(p[1..], rest);
      assert [p[0]] + p[1..] == p;
    }
  }

  /** Splitting a join of comma-free pieces at every comma gives the pieces back. */
  lemma {:induction false} PiecesOfJoin(parts: seq<string>)
    requires |parts| >= 1
    requires forall i :: 0 <= i < |parts| ==> ',' !in parts[i]
    ensures Pieces(Join(parts)) == parts
  {
    if |parts| == 1 {
      PiecesOfCommaFree(parts[0]);
    } else {
      PiecesOfJoin(parts[1..]);
      PiecesOfCons(parts[0], Join(parts[1..]));
      assert [parts[0]] + parts[1..] == parts;
    }
  }

  /** The join of two or more strings: the first, a comma, the join of the rest. */
  lemma JoinOfCons(first: string, tail: seq<string>)
    requires tail != []
    ensures Join([first] + tail) == first + "," + Join(tail)
  {
    assert ([first] + tail)[1..] == tail;
  }

  /** Joining the pieces with commas gives the string back. */
  lemma {:induction false} JoinOfPieces(s: string)
    ensures Join(Pieces(s)) == s
  {
    if s != "" {
      var rest := Pieces(s[1..]);
      JoinOfPieces(s[1..]);
      if s[0] == ',' {
        JoinOfCons("", rest);
      } else if |rest| > 1 {
        JoinOfCons([s[0]] + rest[0], rest[1..]);
        JoinOfCons(rest[0], rest[1..]);
        assert [rest[0]] + rest[1..] == rest;
      }
      assert [s[0]] + s[1..] == s;
    }
  }

  /** `s.split(",")` on a join of comma-free fields whose last field is not empty
      returns exactly those fields. */
  lemma SplitOfJoin(parts: seq<string>)
    requires |parts| >= 2
    requires forall i :: 0 <= i < |parts| ==> ',' !in parts[i]
    requires parts[|parts| - 1] != ""
    ensures Split(Join(parts)) == parts
  {
    assert Join(parts) == parts[0] + "," + Join(parts[1..]);
    assert ',' in Join(parts) by {
      assert Join(parts)[|parts[0]|] == ',';
    }
    PiecesOfJoin(parts);
  }

  /** `m` empty strings: the fields after trailing commas. */
  function Empties(m: nat): (r: seq<string>)
    ensures |r| == m && forall i :: 0 <= i < m ==> r[i] == ""
  {
    if m == 0 then [] else Empties(m - 1) + [""]
  }

  /** Dropping the trailing empty strings of `fields` followed by `m` empty
      strings gives `fields` back, when `fields` does not itself end empty. */
  lemma {:induction false} DropOfEmpties(fields: seq<string>, m: nat)
    requires fields == [] || fields[|fields| - 1] != ""
    ensures DropTrailingEmpty(fields + Empties(m)) == fields
  {
    if m == 0 {
      assert fields + Empties(0) == fields;
    } else {
      assert (fields + Empties(m))[..|fields| + m - 1] == fields + Empties(m - 1);
      DropOfEmpties(fields, m - 1);
    }
  }

  /** The join of two or more strings contains a comma. */
  lemma CommaInJoin(parts: seq<string>)
    requires |parts| >= 2
    ensures ',' in Join(parts)
  {
    JoinOfCons(parts[0], parts[1..]);
    assert [parts[0]] + parts[1..] == parts;
    assert Join(parts)[|parts[0]|] == ',';
  }

  /** Appending empty strings to comma-free strings keeps them comma-free. */
  lemma CommaFreeWithEmpties(fields: seq<string>, m: nat)
    requires forall i :: 0 <= i < |fields| ==> ',' !in fields[i]
    ensures forall i :: 0 <= i < |fields + Empties(m)| ==> ',' !in (fields + Empties(m))[i]
  {
    var all := fields + Empties(m);
    forall i | 0 <= i < |all| ensures ',' !in all[i] {
      if i >= |fields| { assert all[i] == Empties(m)[i - |fields|]; }
    }
  }

  /** `s.split(",")` on every string with a comma: the comma join of
      comma-free fields, the last not empty, followed by `m` empty fields,
      splits into exactly those fields. */
  lemma SplitOfJoinWithTrailingEmpty(fields: seq<string>, m: nat)
    requires |fields| + m >= 2
    requires forall i :: 0 <= i < |fields| ==> ',' !in fields[i]
    requires fields == [] || fields[|fields| - 1] != ""
    ensures Split(Join(fields + Empties(m))) == fields
  {
    var all := fields + Empties(m);
    CommaFreeWithEmpties(fields, m);
    CommaInJoin(all);
    PiecesOfJoin(all);
    DropOfEmpties(fields, m);
  }

  /** Every string with a comma has that form: it is the comma join of its
      `split` fields followed by the empty fields `split` dropped. */
  lemma SplitDecomposes(s: string)
    requires ',' in s
    ensures var m := |Pieces(s)| - |Split(s)|;
      m >= 0 && s == Join(Split(s) + Empties(m))
  {
    var parts, r := Pieces(s), Split(s);
    assert parts == r + Empties(|parts| - |r|);
    JoinOfPieces(s);
  }

  // ---------------------------------------------------------------------------
  // Integer.parseInt and String.valueOf(int).

  predicate IsDigit(c: char) { '0' <= c <= '9' }

  predicate AllDigits(s: string) { forall i :: 0 <= i < |s| ==> IsDigit(s[i]) }

  /** The value of a string of decimal digits, most significant first. */
  function DigitsValue(ds: string): nat
    requires AllDigits(ds)
  {
    if ds == "" then 0
    else 10 * DigitsValue(ds[..|ds| - 1]) + (ds[|ds| - 1] as int - '0' as int)
  }

  /** A decimal numeral as `Integer.parseInt` reads it: an optional sign and at least one digit. */
  predicate IsNumeral(s: string)
  {
    if |s| > 0 && (s[0] == '-' || s[0] == '+') then |s| > 1 && AllDigits(s[1..])
    else |s| > 0 && AllDigits(s)
  }

  function NumeralValue(s: string): int
    requires IsNumeral(s)
  {
    if s[0] == '-' then -(DigitsValue(s[1..]) as int)
    else if s[0] == '+' then DigitsValue(s[1..])
    else DigitsValue(s)
  }

  /** `Integer.parseInt(s)`; `None` stands for the `NumberFormatException` it
      throws: on the empty string, on a lone sign, on any other character than a
      leading sign and the digits, and on a value outside the range of `int`. */
  function ParseInt(s: string): (r: Option<int32>)
    ensures r.Some? ==> IsNumeral(s) && r.value as int == NumeralValue(s)
    ensures IsNumeral(s) && INT_MIN <= NumeralValue(s) <= INT_MAX ==> r.Some?
  {
    if |s| == 0 then None
    else
      var negative := s[0] == '-';
      var digits := if s[0] == '-' || s[0] == '+' then s[1..] else s;
      if |digits| == 0 || !AllDigits(digits) then None
      else
        var v := if negative then -(DigitsValue(digits) as int) else DigitsValue(digits);
        if INT_MIN <= v <= INT_MAX then Some(v as int32) else None
  }

  function DigitChar(d: nat): (c: char)
    requires d < 10
    ensures IsDigit(c) && c as int - '0' as int == d
  {
    ('0' as int + d) as char
  }

  /** The decimal digits of `n`, without leading zeros. */
  function NatToDigits(n: nat): (ds: string)
    ensures |ds| > 0 && AllDigits(ds)
    ensures DigitsValue(ds) == n
    ensures ds[0] != '0' || ds == "0"
  {
    if n < 10 then [DigitChar(n)]
    else
      var prefix := NatToDigits(n / 10);
      var ds := prefix + [DigitChar(n % 10)];
      assert ds[..|ds| - 1] == prefix;
      ds
  }

  /** `String.valueOf(n)` for an `int`. */
  function IntToString(n: int32): (s: string)
  {
    if n < 0 then "-" + NatToDigits(-(n as int)) else NatToDigits(n as int)
  }

  /** `Integer.parseInt` reads back every `int` that `String.valueOf` writes. */
  lemma ParseIntOfIntToString(n: int32)
    ensures ParseInt(IntToString(n)) == Some(n)
    ensures IntToString(n) != "" && ',' !in IntToString(n)
    ensures !IsTrimmed(IntToString(n)[0]) && !IsTrimmed(IntToString(n)[|IntToString(n)| - 1])
  {
    var s := IntToString(n);
    if n < 0 {
      assert s[1..] == NatToDigits(-(n as int));
    }
    assert IsNumeral(s);
    assert ',' !in s by {
      if n < 0 {
        assert forall i :: 1 <= i < |s| ==> IsDigit(s[i]) by {
          assert forall i :: 1 <= i < |s| ==> s[i] == s[1..][i - 1];
        }
      }
    }
  }

  // ---------------------------------------------------------------------------
  // String.hashCode: h = 31 * h + c over the characters, in `int` arithmetic.

  function StringHashCode(s: string): int32
  {
    if s == "" then 0
    else Wrap32(31 * (StringHashCode(s[..|s| - 1]) as int) + s[|s| - 1] as int)
  }
}
