/** The sign-up page's validation (src/routes/signup.tsx): the account
    form's id and password rules and the `redirect` search parameter.
    String lengths are JavaScript lengths, counted in UTF-16 code units. */
module Signup {
  import opened Common

  const IdMin := 3
  const IdMax := 31
  const PasswordMin := 3
  const PasswordMax := 255

  /** A character the id pattern `^[a-zA-Z0-9_]+$` admits. */
  predicate IdChar(ch: char) {
    ('a' <= ch <= 'z') || ('A' <= ch <= 'Z') || ('0' <= ch <= '9') || ch == '_'
  }

  /** Code units a character takes in UTF-16. */
  function Utf16Units(ch: char): nat {
    if ch as int > 0xFFFF then 2 else 1
  }

  /** `s.length` in JavaScript. */
  function Utf16Length(s: string): (n: nat)
    ensures |s| <= n <= 2 * |s|
    ensures (forall k :: 0 <= k < |s| ==> s[k] as int <= 0xFFFF) ==> n == |s|
  {
    if s == [] then 0 else Utf16Units(s[0]) + Utf16Length(s[1..])
  }

  lemma {:induction false} Utf16LengthAppend(s: string, ch: char)
    ensures Utf16Length(s + [ch]) == Utf16Length(s) + Utf16Units(ch)
  {
    if s != [] {
      assert (s + [ch])[1..] == s[1..] + [ch];
      Utf16LengthAppend(s[1..], ch);
    } else {
      assert [ch][1..] == [];
    }
  }

  /** Counts the code units of `s` one character at a time. */
  method CountUtf16(s: string) returns (n: nat)
    ensures n == Utf16Length(s)
  {
    n := 0;
    var i := 0;
    while i < |s|
      invariant 0 <= i <= |s|
      invariant n == Utf16Length(s[..i])
    {
      assert s[..i + 1] == s[..i] + [s[i]];
      Utf16LengthAppend(s[..i], s[i]);
      n := n + Utf16Units(s[i]);
      i := i + 1;
    }
    assert s[..i] == s;
  }

  /** Whether the whole id matches `^[a-zA-Z0-9_]+$`, scanning it once. */
  method MatchesIdPattern(s: string) returns (ok: bool)
    ensures ok <==> |s| >= 1 && forall k :: 0 <= k < |s| ==> IdChar(s[k])
  {
    if |s| == 0 {
      return false;
    }
    ok := true;
    var i := 0;
    while i < |s|
      invariant 0 <= i <= |s|
      invariant ok <==> forall k :: 0 <= k < i ==> IdChar(s[k])
    {
      if !IdChar(s[i]) {
        ok := false;
      }
      i := i + 1;
    }
  }

  /** What zod reports: one entry per failed check. */
  datatype Issue = IdTooShort | IdTooLong | IdPattern | PasswordTooShort | PasswordTooLong

  predicate ValidId(id: string) {
    && IdMin <= Utf16Length(id) <= IdMax
    && |id| >= 1 && forall k :: 0 <= k < |id| ==> IdChar(id[k])
  }

  predicate ValidPassword(password: string) {
    PasswordMin <= Utf16Length(password) <= PasswordMax
  }

  /** `signupSchema` on the form's values: every failed check, as zod
      collects them. The contract states which issues are reported, not
      their order. */
  method Validate(id: string, password: string) returns (issues: seq<Issue>)
    ensures issues == [] <==> ValidId(id) && ValidPassword(password)
    ensures IdTooShort in issues <==> Utf16Length(id) < IdMin
    ensures IdTooLong in issues <==> Utf16Length(id) > IdMax
    ensures IdPattern in issues <==> !(|id| >= 1 && forall k :: 0 <= k < |id| ==> IdChar(id[k]))
    ensures PasswordTooShort in issues <==> Utf16Length(password) < PasswordMin
    ensures PasswordTooLong in issues <==> Utf16Length(password) > PasswordMax
  {
    issues := [];
    var idLength := CountUtf16(id);
    if idLength < IdMin { issues := issues + [IdTooShort]; }
    if idLength > IdMax { issues := issues + [IdTooLong]; }
    var matches := MatchesIdPattern(id);
    if !matches { issues := issues + [IdPattern]; }
    var passwordLength := CountUtf16(password);
    if passwordLength < PasswordMin { issues := issues + [PasswordTooShort]; }
    if passwordLength > PasswordMax { issues := issues + [PasswordTooLong]; }
  }

  /** A valid id is plain ASCII, so its JavaScript length is its number of
      characters: between 3 and 31 of them. */
  lemma ValidIdIsShortAscii(id: string)
    requires ValidId(id)
    ensures IdMin <= |id| <= IdMax
  {
  }

  /** The empty form the page starts with is rejected on both fields. */
  method EmptyFormRejected() returns (issues: seq<Issue>)
    ensures IdTooShort in issues && IdPattern in issues && PasswordTooShort in issues
  {
    issues := Validate("", "");
  }

  /** The raw `redirect` search parameter: missing, a string, or some
      other JSON value. */
  datatype SearchValue = Absent | Str(s: string) | Other

  /** `fallback(z.string(), "/").default("/")`: a string is kept; anything
      else, including nothing, becomes "/". */
  function RedirectOf(v: SearchValue): (r: string)
    ensures v.Str? ==> r == v.s
    ensures !v.Str? ==> r == "/"
  {
    match v
    case Str(s) => s
    case _ => "/"
  }

  /** Validating the search again after navigation keeps the target:
      the value the schema produced is accepted as it is. */
  lemma RedirectStable(v: SearchValue)
    ensures RedirectOf(Str(RedirectOf(v))) == RedirectOf(v)
    ensures RedirectOf(v) == "/" || v.Str?
  {
  }
}
