/** The string operations the front-end borrows from JavaScript:
    `trim`, ASCII `toLowerCase`, `includes`, `split(",")`, the decimal
    rendering of an integer id (`id.toString()`) and `parseInt` on digit
    strings. */
module Text {
  import opened Common

  /** JavaScript's WhiteSpace and LineTerminator code points, which
      `String.prototype.trim` removes. */
  predicate IsSpace(ch: char) {
    || ch == ' ' || ch == '\t' || ch == '\n' || ch == '\r'
    || ch == '\U{000B}' || ch == '\U{000C}' || ch == '\U{00A0}' || ch == '\U{1680}'
    || ('\U{2000}' <= ch <= '\U{200A}')
    || ch == '\U{2028}' || ch == '\U{2029}' || ch == '\U{202F}' || ch == '\U{205F}'
    || ch == '\U{3000}' || ch == '\U{FEFF}'
  }

  /** JavaScript truthiness of an optional string: absent and `""` are falsy. */
  predicate TruthyString(s: Option<string>) {
    s.Some? && s.value != ""
  }

  function TrimStart(s: string): (r: string)
    ensures |r| <= |s|
    ensures r == s[|s| - |r|..]
    ensures r != [] ==> !IsSpace(r[0])
    ensures forall k :: 0 <= k < |s| - |r| ==> IsSpace(s[k])
  {
    if s != [] && IsSpace(s[0]) then TrimStart(s[1..]) else s
  }

  function TrimEnd(s: string): (r: string)
    ensures |r| <= |s|
    ensures r == s[..|r|]
    ensures r != [] ==> !IsSpace(r[|r| - 1])
    ensures forall k :: |r| <= k < |s| ==> IsSpace(s[k])
  {
    if s != [] && IsSpace(s[|s| - 1]) then TrimEnd(s[..|s| - 1]) else s
  }

  /** `r` is `s` with white space only in front of it and behind it:
      `r` starts at index `i` of `s`. */
  predicate TrimmedAt(s: string, r: string, i: int) {
    && 0 <= i && i + |r| <= |s| && r == s[i..i + |r|]
    && (forall k :: 0 <= k < i ==> IsSpace(s[k]))
    && (forall k :: i + |r| <= k < |s| ==> IsSpace(s[k]))
  }

  /** `s.trim()`: the part of `s` between its leading and trailing white
      space, which neither starts nor ends with white space. */
  function Trim(s: string): (r: string)
    ensures exists i :: TrimmedAt(s, r, i)
    ensures r != [] ==> !IsSpace(r[0]) && !IsSpace(r[|r| - 1])
  {
    var t := TrimStart(s);
    var r := TrimEnd(t);
    assert TrimmedAt(s, r, |s| - |t|) by {
      assert s[|s| - |t|..|s| - |t| + |r|] == t[..|r|];
      forall k | |s| - |t| + |r| <= k < |s|
        ensures IsSpace(s[k])
      {
        assert s[k] == t[k - (|s| - |t|)];
      }
    }
    r
  }

  /** A name is blank exactly when every character is white space: that is
      when `!name.trim()` holds. */
  lemma BlankIffAllSpace(s: string)
    ensures Trim(s) == "" <==> forall k :: 0 <= k < |s| ==> IsSpace(s[k])
  {
    var t := TrimStart(s);
    if Trim(s) == "" {
      assert |t| == 0;
    } else {
      var r := Trim(s);
      assert r[0] == t[0];
      assert !IsSpace(s[|s| - |t|]);
    }
  }

  /** ASCII `toLowerCase`; other characters are left alone. */
  function LowerChar(ch: char): char {
    if 'A' <= ch <= 'Z' then (ch as int + 32) as char else ch
  }

  function ToLower(s: string): (r: string)
    ensures |r| == |s|
    ensures forall k :: 0 <= k < |s| ==> r[k] == LowerChar(s[k])
  {
    if s == [] then [] else [LowerChar(s[0])] + ToLower(s[1..])
  }

  /** `needle` occurs in `hay` starting at index `i`. */
  predicate OccursAt(hay: string, needle: string, i: int) {
    0 <= i && i + |needle| <= |hay| && hay[i..i + |needle|] == needle
  }

  /** `hay.includes(needle)`, written as a left-to-right scan. */
  function Includes(hay: string, needle: string): (b: bool)
    ensures b <==> exists i :: OccursAt(hay, needle, i)
  {
    if |needle| > |hay| then false
    else if hay[..|needle|] == needle then assert OccursAt(hay, needle, 0); true
    else
      var rest := Includes(hay[1..], needle);
      assert rest ==> exists i :: OccursAt(hay, needle, i) by {
        if rest {
          var i :| OccursAt(hay[1..], needle, i);
          assert hay[i + 1..i + 1 + |needle|] == hay[1..][i..i + |needle|];
          assert OccursAt(hay, needle, i + 1);
        }
      }
      assert (exists i :: OccursAt(hay, needle, i)) ==> rest by {
        if exists i :: OccursAt(hay, needle, i) {
          var i :| OccursAt(hay, needle, i);
          assert i != 0;
          assert hay[1..][i - 1..i - 1 + |needle|] == hay[i..i + |needle|];
          assert OccursAt(hay[1..], needle, i - 1);
        }
      }
      rest
  }

  /** How many times `c` occurs in `s`. */
  function CountOf(s: string, c: char): (n: nat)
    ensures n == 0 <==> c !in s
  {
    if s == [] then 0 else (if s[0] == c then 1 else 0) + CountOf(s[1..], c)
  }

  lemma {:induction false} CountOfAppend(a: string, b: string, c: char)
    ensures CountOf(a + b, c) == CountOf(a, c) + CountOf(b, c)
  {
    if a != [] {
      assert (a + b)[0] == a[0];
      assert (a + b)[1..] == a[1..] + b;
      CountOfAppend(a[1..], b, c);
    } else {
      assert a + b == b;
    }
  }

  /** `s.split(sep)` for a one-character separator: one more piece than
      there are separators, none of them holding the separator. */
  function Split(s: string, sep: char): (r: seq<string>)
    ensures |r| >= 1
    ensures |r| == CountOf(s, sep) + 1
    ensures forall k :: 0 <= k < |r| ==> sep !in r[k]
  {
    if s == [] then [""]
    else
      var rest := Split(s[1..], sep);
      if s[0] == sep then [""] + rest
      else [[s[0]] + rest[0]] + rest[1..]
  }

  /** `parts.join(sep)`: it starts with the first part, and pieces free of
      the separator are told apart by exactly `|parts| - 1` separators. */
  function Join(parts: seq<string>, sep: char): (r: string)
    requires |parts| >= 1
    ensures parts[0] <= r
    ensures (forall k :: 0 <= k < |parts| ==> sep !in parts[k]) ==> CountOf(r, sep) == |parts| - 1
  {
    if |parts| == 1 then parts[0]
    else
      var rest := Join(parts[1..], sep);
      CountOfAppend(parts[0], [sep], sep);
      CountOfAppend(parts[0] + [sep], rest, sep);
      assert CountOf([sep], sep) == 1 by {
        assert [sep][1..] == [];
      }
      parts[0] + [sep] + rest
  }

  /** Splitting loses nothing: joining the pieces back gives the input. */
  lemma {:induction false} JoinSplit(s: string, sep: char)
    ensures Join(Split(s, sep), sep) == s
  {
    if s != [] {
      var rest := Split(s[1..], sep);
      JoinSplit(s[1..], sep);
      if s[0] == sep {
        JoinCons("", rest, sep);
        assert s == [sep] + s[1..];
      } else {
        JoinGlue(s[0], rest, sep);
        assert s == [s[0]] + s[1..];
      }
    }
  }

  lemma JoinCons(a: string, parts: seq<string>, sep: char)
    requires |parts| >= 1
    ensures Join([a] + parts, sep) == a + [sep] + Join(parts, sep)
  {
    assert ([a] + parts)[1..] == parts;
  }

  /** A character glued to the first piece comes first in the join. */
  lemma JoinGlue(ch: char, parts: seq<string>, sep: char)
    requires |parts| >= 1
    ensures Join([[ch] + parts[0]] + parts[1..], sep) == [ch] + Join(parts, sep)
  {
    if |parts| > 1 {
      JoinCons([ch] + parts[0], parts[1..], sep);
      JoinCons(parts[0], parts[1..], sep);
      assert [parts[0]] + parts[1..] == parts;
    }
  }

  /** Splitting at the first separator: a separator-free head glued to
      whatever follows becomes the head of the first piece. */
  lemma {:induction false} SplitGlue(a: string, rest: string, sep: char)
    requires sep !in a
    ensures var t := Split(rest, sep);
            Split(a + rest, sep) == [a + t[0]] + t[1..]
  {
    if a != [] {
      assert (a + rest)[0] == a[0];
      assert (a + rest)[1..] == a[1..] + rest;
      SplitGlue(a[1..], rest, sep);
      var t := Split(rest, sep);
      var r := Split(a[1..] + rest, sep);
      assert a[0] != sep by { assert a[0] in a; }
      assert Split(a + rest, sep) == [[a[0]] + r[0]] + r[1..];
      assert r[0] == a[1..] + t[0] && r[1..] == t[1..];
      assert a == [a[0]] + a[1..];
      assert [a[0]] + r[0] == a + t[0];
    } else {
      var t := Split(rest, sep);
      assert a + rest == rest;
      assert a + t[0] == t[0];
      assert t == [t[0]] + t[1..];
    }
  }

  /** Joining separator-free pieces and splitting again gives the pieces
      back. */
  lemma {:induction false} SplitJoin(parts: seq<string>, sep: char)
    requires |parts| >= 1
    requires forall k :: 0 <= k < |parts| ==> sep !in parts[k]
    ensures Split(Join(parts, sep), sep) == parts
  {
    if |parts| == 1 {
      SplitGlue(parts[0], "", sep);
      assert Split("", sep) == [""];
      assert parts[0] + "" == parts[0];
      assert parts == [parts[0]];
    } else {
      var tail := Join(parts[1..], sep);
      SplitJoin(parts[1..], sep);
      assert [parts[0]] + parts[1..] == parts;
      JoinCons(parts[0], parts[1..], sep);
      SplitAtSep(parts[0], tail, sep);
    }
  }

  /** Splitting stops at the first separator. */
  lemma SplitAtSep(head: string, tail: string, sep: char)
    requires sep !in head
    ensures Split(head + [sep] + tail, sep) == [head] + Split(tail, sep)
  {
    assert Split([sep] + tail, sep) == [""] + Split(tail, sep) by {
      assert ([sep] + tail)[1..] == tail;
    }
    SplitGlue(head, [sep] + tail, sep);
    assert head + [sep] + tail == head + ([sep] + tail);
    assert head + "" == head;
  }

  function DigitChar(d: nat): char
    requires d < 10
  {
    ('0' as int + d) as char
  }

  predicate IsDigit(ch: char) { '0' <= ch <= '9' }

  /** The decimal rendering of a natural number, without leading zeros. */
  function NatToString(n: nat): (r: string)
    ensures |r| >= 1
    ensures forall k :: 0 <= k < |r| ==> IsDigit(r[k])
    ensures n >= 10 ==> |r| >= 2
  {
    if n < 10 then [DigitChar(n)] else NatToString(n / 10) + [DigitChar(n % 10)]
  }

  /** `n.toString()` for an integer id. */
  function IdString(n: int): string {
    if n >= 0 then NatToString(n) else "-" + NatToString(-n)
  }

  lemma {:induction false} NatToStringInjective(a: nat, b: nat)
    ensures NatToString(a) == NatToString(b) ==> a == b
    decreases a
  {
    if NatToString(a) == NatToString(b) {
      var sa := NatToString(a);
      var sb := NatToString(b);
      assert sa[|sa| - 1] == sb[|sb| - 1];
      if a >= 10 && b >= 10 {
        assert sa[..|sa| - 1] == NatToString(a / 10);
        assert sb[..|sb| - 1] == NatToString(b / 10);
        NatToStringInjective(a / 10, b / 10);
      }
    }
  }

  /** Distinct ids render to distinct strings, so comparing
      `id.toString()` with a stored string is comparing ids. */
  lemma IdStringInjective(a: int, b: int)
    ensures IdString(a) == IdString(b) ==> a == b
  {
    if a >= 0 && b >= 0 {
      NatToStringInjective(a, b);
    } else if a < 0 && b < 0 {
      assert IdString(a)[1..] == NatToString(-a);
      assert IdString(b)[1..] == NatToString(-b);
      NatToStringInjective(-a, -b);
    } else {
      assert IdString(a)[0] != IdString(b)[0];
    }
  }

  function DigitValue(ch: char): nat
    requires IsDigit(ch)
  {
    ch as int - '0' as int
  }

  function DigitsValue(s: string): nat
    requires forall k :: 0 <= k < |s| ==> IsDigit(s[k])
  {
    if s == [] then 0 else DigitsValue(s[..|s| - 1]) * 10 + DigitValue(s[|s| - 1])
  }

  /** The longest run of decimal digits at the start of `s`. */
  function DigitPrefix(s: string): (r: string)
    ensures |r| <= |s| && r == s[..|r|]
    ensures forall k :: 0 <= k < |r| ==> IsDigit(r[k])
    ensures |r| < |s| ==> !IsDigit(s[|r|])
  {
    if s != [] && IsDigit(s[0]) then [s[0]] + DigitPrefix(s[1..]) else []
  }

  /** `parseInt(s)`: leading white space is skipped, one optional sign is
      read, then the longest digit run; `None` is NaN (no digit follows). */
  function ParseInt(s: string): (r: Option<int>)
    ensures TrimStart(s) == [] ==> r.None?
    ensures r.Some? && r.value < 0 ==> TrimStart(s)[0] == '-'
    ensures TrimStart(s) != [] && IsDigit(TrimStart(s)[0]) ==> r.Some? && r.value >= 0
    ensures TrimStart(s) != [] && !IsDigit(TrimStart(s)[0]) && TrimStart(s)[0] != '-' && TrimStart(s)[0] != '+' ==> r.None?
  {
    var t := TrimStart(s);
    if t != [] && (t[0] == '-' || t[0] == '+') then
      var d := DigitPrefix(t[1..]);
      var v: int := DigitsValue(d);
      if d == [] then None
      else if t[0] == '-' then Some(-v)
      else Some(v)
    else
      var d := DigitPrefix(t);
      var v: int := DigitsValue(d);
      if d == [] then None else Some(v)
  }

  lemma {:induction false} DigitPrefixOfDigits(s: string)
    requires forall k :: 0 <= k < |s| ==> IsDigit(s[k])
    ensures DigitPrefix(s) == s
  {
    if s != [] {
      DigitPrefixOfDigits(s[1..]);
    }
  }

  lemma {:induction false} DigitsValueOfNatToString(n: nat)
    ensures DigitsValue(NatToString(n)) == n
    decreases n
  {
    var s := NatToString(n);
    if n >= 10 {
      DigitsValueOfNatToString(n / 10);
      assert s[..|s| - 1] == NatToString(n / 10);
      assert DigitValue(s[|s| - 1]) == n % 10;
    } else {
      assert s == [DigitChar(n)];
      assert s[..0] == [];
      assert DigitsValue(s) == DigitsValue([]) * 10 + DigitValue(DigitChar(n));
    }
  }

  lemma IdStringUntrimmed(n: int)
    ensures TrimStart(IdString(n)) == IdString(n)
  {
    var s := IdString(n);
    assert s[0] == '-' || IsDigit(s[0]);
    assert !IsSpace(s[0]);
  }

  lemma ParseNatString(n: nat)
    ensures ParseInt(NatToString(n)) == Some(n)
  {
    var s := NatToString(n);
    IdStringUntrimmed(n);
    assert IsDigit(s[0]);
    DigitPrefixOfDigits(s);
    DigitsValueOfNatToString(n);
  }

  /** Parsing undoes rendering: `parseInt(id.toString())` is `id`, so a
      select option's value string leads back to its record's id. */
  lemma ParseIntIdString(n: int)
    ensures ParseInt(IdString(n)) == Some(n)
  {
    if n >= 0 {
      ParseNatString(n);
    } else {
      var d := NatToString(-n);
      IdStringUntrimmed(n);
      assert IdString(n)[1..] == d;
      DigitPrefixOfDigits(d);
      DigitsValueOfNatToString(-n);
      ParseNegative(IdString(n));
    }
  }

  /** A minus sign followed by nothing but digits parses to the negated
      digits' value. */
  lemma ParseNegative(t: string)
    requires TrimStart(t) == t && |t| >= 2 && t[0] == '-'
    requires DigitPrefix(t[1..]) == t[1..]
    ensures ParseInt(t) == Some(-(DigitsValue(t[1..]) as int))
  {
    var u := TrimStart(t);
    assert u != [] && u[0] == '-';
    var d := DigitPrefix(u[1..]);
    assert d == t[1..] && d != [];
  }
}
