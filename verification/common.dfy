/** Values shared by every part of the client model: optional values, backend errors,
    the profile record, and the few string operations the pages apply to user input
    (JavaScript's String.prototype.trim, lower-casing of ASCII letters and the Kelvin sign,
    substring search). */
module Common {

  datatype Option<T> = None | Some(value: T)

  datatype Result<T, E> = Success(value: T) | Failure(error: E)

  /** An error object reported by the hosted backend (database, storage or auth service). */
  datatype Error = Error(code: string, message: string)

  /** The row of the `profiles` table. Timestamps are modelled as natural numbers: the
      backend's ISO-8601 strings order the same way. */
  datatype Profile = Profile(
    id: string,
    userId: string,
    username: string,
    displayName: string,
    bio: string,
    profileImage: Option<string>,
    isPrivate: bool,
    createdAt: nat,
    updatedAt: nat)

  /** The signed-in user as the auth service reports it; `confirmed` is whether
      `email_confirmed_at` is set. */
  datatype AuthUser = AuthUser(id: string, email: Option<string>, confirmed: bool)

  /** ECMAScript WhiteSpace or LineTerminator: the characters `trim` removes. */
  predicate IsSpace(c: char) {
    || c == '\t' || c == '\n' || c == '\U{000B}' || c == '\U{000C}' || c == '\r'
    || c == ' ' || c == '\U{00A0}' || c == '\U{1680}'
    || ('\U{2000}' <= c <= '\U{200A}')
    || c == '\U{2028}' || c == '\U{2029}' || c == '\U{202F}' || c == '\U{205F}'
    || c == '\U{3000}' || c == '\U{FEFF}'
  }

  /** `s.trimStart()`: the longest suffix of `s` that does not start with whitespace. */
  function TrimStart(s: string): (r: string)
    ensures |r| <= |s| && r == s[|s| - |r|..]
    ensures forall i :: 0 <= i < |s| - |r| ==> IsSpace(s[i])
    ensures r == [] || !IsSpace(r[0])
  {
    if |s| > 0 && IsSpace(s[0]) then TrimStart(s[1..]) else s
  }

  /** `s.trimEnd()`: the longest prefix of `s` that does not end with whitespace. */
  function TrimEnd(s: string): (r: string)
    ensures |r| <= |s| && r == s[..|r|]
    ensures forall i :: |r| <= i < |s| ==> IsSpace(s[i])
    ensures r == [] || !IsSpace(r[|r| - 1])
  {
    if |s| > 0 && IsSpace(s[|s| - 1]) then TrimEnd(s[..|s| - 1]) else s
  }

  /** `s.trim()`. */
  function Trim(s: string): (r: string)
    ensures |r| <= |s|
    ensures r == [] || (!IsSpace(r[0]) && !IsSpace(r[|r| - 1]))
  {
    TrimEnd(TrimStart(s))
  }

  /** `trim` cuts whitespace, and only whitespace, from both ends: the result is the
      slice `s[i..j]` with every character before `i` and from `j` on whitespace, and it
      neither starts nor ends with whitespace, so no longer slice qualifies. */
  lemma TrimShape(s: string)
    ensures exists i, j ::
              && 0 <= i <= j <= |s| && Trim(s) == s[i..j]
              && (forall k :: 0 <= k < i ==> IsSpace(s[k]))
              && (forall k :: j <= k < |s| ==> IsSpace(s[k]))
    ensures Trim(s) == [] || (!IsSpace(Trim(s)[0]) && !IsSpace(Trim(s)[|Trim(s)| - 1]))
  {
    var t := TrimStart(s);
    var i := |s| - |t|;
    var j := i + |Trim(s)|;
    assert Trim(s) == s[i..j] && forall k :: j <= k < |s| ==> IsSpace(s[k]) by {
      var r := TrimEnd(t);
      assert Trim(s) == r;
      assert t == s[i..] && r == t[..|r|];
      forall k | j <= k < |s| ensures IsSpace(s[k]) {
        assert s[k] == t[k - i];
      }
    }
    assert forall k :: 0 <= k < i ==> IsSpace(s[k]);
  }

  /** The string is empty or made only of whitespace; `BlankIffAllSpace` shows this is
      `!s.trim()`. */
  predicate IsBlank(s: string) {
    forall i :: 0 <= i < |s| ==> IsSpace(s[i])
  }

  /** `!s.trim()` holds exactly for the blank strings. */
  lemma BlankIffAllSpace(s: string)
    ensures Trim(s) == [] <==> IsBlank(s)
  {
    var t := TrimStart(s);
    if Trim(s) == [] {
      // all of `t` is whitespace, yet `t` does not start with whitespace
      assert t == [];
    } else {
      var r := Trim(s);
      assert r[0] == t[0] == s[|s| - |t|];
    }
  }

  /** `s.length`: the number of UTF-16 code units. A character outside the Basic
      Multilingual Plane is a surrogate pair and counts twice. */
  function Utf16Length(s: string): (r: nat)
    ensures |s| <= r <= 2 * |s|
  {
    UnitsFrom(s, 0)
  }

  /** The code units of `s[k..]`, counted by position so that no new sequence is built. */
  function UnitsFrom(s: string, k: nat): (r: nat)
    requires k <= |s|
    ensures |s| - k <= r <= 2 * (|s| - k)
    decreases |s| - k
  {
    if k == |s| then 0
    else (if s[k] as int >= 0x10000 then 2 else 1) + UnitsFrom(s, k + 1)
  }

  /** Inside the Basic Multilingual Plane code units and characters coincide. */
  lemma Utf16LengthBmp(s: string)
    requires forall i :: 0 <= i < |s| ==> s[i] as int < 0x10000
    ensures Utf16Length(s) == |s|
  {
    var k := |s|;
    while k > 0
      invariant 0 <= k <= |s| && UnitsFrom(s, k) == |s| - k
    {
      k := k - 1;
    }
  }

  /** U+212A KELVIN SIGN, the one character outside ASCII that `toLowerCase` turns into
      ASCII text (the letter `k`). */
  const KelvinSign: char := '\U{212A}'

  /** `toLowerCase` on the characters a username can be made of: ASCII letters and the
      Kelvin sign are folded, every other character is left alone. */
  function LowerChar(c: char): (r: char)
    ensures 'A' <= c <= 'Z' ==> r as int == c as int + 32
    ensures c == KelvinSign ==> r == 'k'
    ensures !('A' <= c <= 'Z') && c != KelvinSign ==> r == c
    // lower-casing is idempotent
    ensures LowerCharFixed(r)
  {
    if 'A' <= c <= 'Z' then (c as int + 32) as char
    else if c == KelvinSign then 'k'
    else c
  }

  /** A character that lower-casing leaves alone. */
  predicate LowerCharFixed(c: char) {
    !('A' <= c <= 'Z') && c != KelvinSign
  }

  function Lower(s: string): (r: string)
    ensures |r| == |s|
    ensures forall i :: 0 <= i < |s| ==> r[i] == LowerChar(s[i])
  {
    seq(|s|, i requires 0 <= i < |s| => LowerChar(s[i]))
  }

  /** `t` occurs in `s` at position `i`. */
  predicate OccursAt(s: string, t: string, i: int) {
    0 <= i && i + |t| <= |s| && s[i..i + |t|] == t
  }

  /** Substring search by scanning `s` from the left. */
  function Contains(s: string, t: string): bool
  {
    if t <= s then true
    else if |s| == 0 then false
    else Contains(s[1..], t)
  }

  lemma OccursAtHead(s: string, t: string)
    ensures OccursAt(s, t, 0) <==> t <= s
  {
    if t <= s {
      assert s[..|t|] == t;
    }
  }

  lemma OccursAtShift(s: string, t: string, i: int)
    requires |s| > 0 && i >= 1
    ensures OccursAt(s, t, i) <==> OccursAt(s[1..], t, i - 1)
  {
    if i + |t| <= |s| {
      assert s[1..][i - 1..i - 1 + |t|] == s[i..i + |t|];
    }
  }

  lemma {:induction false} ContainsIffOccurs(s: string, t: string)
    ensures Contains(s, t) <==> exists i :: OccursAt(s, t, i)
  {
    OccursAtHead(s, t);
    if t <= s {
    } else if |s| == 0 {
      assert forall i :: !OccursAt(s, t, i);
    } else {
      ContainsIffOccurs(s[1..], t);
      forall i | i >= 1 ensures OccursAt(s, t, i) <==> OccursAt(s[1..], t, i - 1) {
        OccursAtShift(s, t, i);
      }
      if Contains(s[1..], t) {
        var i :| OccursAt(s[1..], t, i);
        assert OccursAt(s, t, i + 1);
      } else {
        assert forall i :: !OccursAt(s[1..], t, i);
      }
    }
  }

  /** Decimal digits of `n`, as JavaScript's template literals render a non-negative integer. */
  function NatToString(n: nat): (r: string)
    ensures |r| >= 1
    ensures forall i :: 0 <= i < |r| ==> '0' <= r[i] <= '9'
  {
    var d := ['0' + (n % 10) as char];
    if n < 10 then d else NatToString(n / 10) + d
  }
}
