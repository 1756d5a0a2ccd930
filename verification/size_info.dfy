/** The size-information text area (src/components/product/create/PricingSection.tsx
    and src/routes/product.create.tsx): every line break typed is turned
    into a Markdown hard break, two spaces followed by the line break. */
module SizeInfo {
  import opened Common

  const HardBreak := "  \n"

  /** `value.replace(/\n/g, "  \n")` */
  function HardBreaks(s: string): (r: string)
    ensures |r| == |s| + 2 * Count(s, '\n')
    ensures Count(r, '\n') == Count(s, '\n')
    ensures s != [] && s[0] != '\n' ==> r != [] && r[0] == s[0]
    ensures r == [] || r[0] != '\n'
    ensures SpacedBreaks(r)
  {
    if s == [] then []
    else
      var rest := HardBreaks(s[1..]);
      if s[0] == '\n' then
        BreakInFront(rest);
        HardBreak + rest
      else
        CharInFront(s[0], rest);
        [s[0]] + rest
  }

  /** Every line break of `r` comes after two spaces. */
  predicate SpacedBreaks(r: string) {
    forall k :: 0 <= k < |r| && r[k] == '\n' ==> k >= 2 && r[k - 2] == ' ' && r[k - 1] == ' '
  }

  lemma BreakInFront(rest: string)
    requires SpacedBreaks(rest)
    ensures Count(HardBreak + rest, '\n') == 1 + Count(rest, '\n')
    ensures SpacedBreaks(HardBreak + rest)
  {
    assert ("\n" + rest)[1..] == rest;
    assert Count("\n" + rest, '\n') == 1 + Count(rest, '\n');
    assert (" \n" + rest)[1..] == "\n" + rest;
    assert Count(" \n" + rest, '\n') == Count("\n" + rest, '\n');
    assert (HardBreak + rest)[1..] == " \n" + rest;
    var r := HardBreak + rest;
    forall k | 0 <= k < |r| && r[k] == '\n'
      ensures k >= 2 && r[k - 2] == ' ' && r[k - 1] == ' '
    {
      if k >= 3 {
        assert r[k] == rest[k - 3];
        if k - 3 >= 2 {
          assert r[k - 2] == rest[k - 5] && r[k - 1] == rest[k - 4];
        }
      }
    }
  }

  lemma CharInFront(c: char, rest: string)
    requires c != '\n'
    requires rest == [] || rest[0] != '\n'
    requires SpacedBreaks(rest)
    ensures Count([c] + rest, '\n') == Count(rest, '\n')
    ensures SpacedBreaks([c] + rest)
  {
    var r := [c] + rest;
    assert r[1..] == rest;
    forall k | 0 <= k < |r| && r[k] == '\n'
      ensures k >= 2 && r[k - 2] == ' ' && r[k - 1] == ' '
    {
      assert r[k] == rest[k - 1];
    }
  }

  /** The reverse reading: every two spaces directly before a line break
      are dropped. */
  function Unbreak(r: string): string {
    if r == [] then []
    else if |r| >= 3 && r[..3] == HardBreak then "\n" + Unbreak(r[3..])
    else [r[0]] + Unbreak(r[1..])
  }

  /** The text typed is recoverable from the stored value: dropping the
      inserted spaces gives it back, so no character other than the
      inserted spaces is added, lost or moved. */
  lemma {:induction false} UnbreakHardBreaks(s: string)
    ensures Unbreak(HardBreaks(s)) == s
  {
    if s != [] {
      var rest := HardBreaks(s[1..]);
      UnbreakHardBreaks(s[1..]);
      if s[0] == '\n' {
        assert (HardBreak + rest)[..3] == HardBreak;
        assert (HardBreak + rest)[3..] == rest;
      } else {
        var r := [s[0]] + rest;
        assert r[1..] == rest;
        NoHardBreakInFront(s[0], s[1..]);
        if |r| >= 3 {
          assert r[..3][1] == r[1] && r[..3][2] == r[2];
        }
        assert s == [s[0]] + s[1..];
      }
    }
  }

  /** Rewriting a text that starts with some other character than a line
      break does not produce a hard break at the front: the second
      character is not a space, or the third is not a line break. */
  lemma NoHardBreakInFront(c: char, t: string)
    requires c != '\n'
    ensures var r := [c] + HardBreaks(t);
            |r| >= 3 ==> r[1] != ' ' || r[2] != '\n'
  {
    var h := HardBreaks(t);
    if |h| >= 2 {
      if t[0] == '\n' {
        assert h == HardBreak + HardBreaks(t[1..]);
      } else if t[0] == ' ' {
        assert h == [t[0]] + HardBreaks(t[1..]);
        assert h[1] == HardBreaks(t[1..])[0];
      }
    }
  }

  // ---------------------------------------------------------------------
  // The change handler

  /** As written, the handler rewrites the whole value on every change, so
      the breaks already stored are rewritten again. */
  function OnChangeAsWritten(value: string): (r: string)
    ensures Unbreak(r) == value
  {
    UnbreakHardBreaks(value);
    HardBreaks(value)
  }

  /** The handler applied to a value that already holds hard breaks only
      turns the new line breaks into hard breaks. */
  function OnChange(value: string): (r: string)
    ensures Unbreak(r) == Unbreak(value)
  {
    UnbreakHardBreaks(Unbreak(value));
    HardBreaks(Unbreak(value))
  }

  /** Typing one more character after a line break, as written, adds two
      more spaces in front of the break each time. */
  lemma SpacesPileUp()
    ensures OnChangeAsWritten(OnChangeAsWritten("\n") + "a") == "    \na"
    ensures OnChange(OnChange("\n") + "a") == "  \na"
  {
    AsWrittenAddsSpaces();
    CorrectedKeepsTwoSpaces();
  }

  lemma SmallBreaks()
    ensures HardBreaks("a") == "a"
    ensures HardBreaks("\n") == "  \n"
    ensures HardBreaks("\na") == "  \na"
  {
    assert "a"[1..] == [];
    assert "\n"[1..] == [];
    assert "\na"[1..] == "a";
  }

  lemma AsWrittenAddsSpaces()
    ensures OnChangeAsWritten(OnChangeAsWritten("\n") + "a") == "    \na"
  {
    SmallBreaks();
    var v := "  \na";
    assert "  \n" + "a" == v;
    assert HardBreaks(" \na") == "   \na" by { assert " \na"[1..] == "\na"; }
    assert HardBreaks(v) == "    \na" by { assert v[1..] == " \na"; }
  }

  lemma CorrectedKeepsTwoSpaces()
    ensures OnChange(OnChange("\n") + "a") == "  \na"
  {
    SmallBreaks();
    assert Unbreak("\n") == "\n" by { assert "\n"[1..] == []; }
    assert OnChange("\n") == "  \n";
    var v := "  \na";
    assert "  \n" + "a" == v;
    assert Unbreak("a") == "a" by { assert "a"[1..] == []; }
    assert Unbreak(v) == "\na" by {
      assert v[..3] == HardBreak;
      assert v[3..] == "a";
    }
  }

  /** Rewriting an already rewritten value with the corrected handler
      changes nothing: each stored break keeps exactly two spaces. */
  lemma OnChangeIdempotent(value: string)
    ensures OnChange(OnChange(value)) == OnChange(value)
  {
    UnbreakHardBreaks(Unbreak(value));
  }

  /** On a value without stored hard breaks the corrected handler behaves
      as written. */
  lemma OnChangeAgreesOnFreshText(value: string)
    requires Unbreak(value) == value
    ensures OnChange(value) == OnChangeAsWritten(value)
  {
  }
}
