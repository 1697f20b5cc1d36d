/** String helpers the marketplace relies on: ASCII lower-casing and substring
    search (JavaScript `toLowerCase` / `includes`), PHP `explode(' ', …)`, and
    decimal digits. */
module Text {

  /** ASCII lower-casing of one character. */
  function Lower(c: char): char {
    if 'A' <= c <= 'Z' then (c as int + 32) as char else c
  }

  function ToLower(s: string): (r: string)
    ensures |r| == |s|
    ensures forall i | 0 <= i < |s| :: r[i] == Lower(s[i])
  {
    seq(|s|, i requires 0 <= i < |s| => Lower(s[i]))
  }

  /** Lower-casing works character by character, so it distributes over concatenation. */
  lemma ToLowerConcat(a: string, b: string)
    ensures ToLower(a + b) == ToLower(a) + ToLower(b)
  {
    assert forall i | 0 <= i < |a + b| :: ToLower(a + b)[i] == (ToLower(a) + ToLower(b))[i];
  }

  /** Lower-casing twice is lower-casing once. */
  lemma ToLowerIdempotent(s: string)
    ensures ToLower(ToLower(s)) == ToLower(s)
  {
    assert forall i | 0 <= i < |s| :: ToLower(ToLower(s))[i] == ToLower(s)[i];
  }

  /** `needle` occurs in `hay` starting at position `i`. */
  predicate OccursAt(hay: string, needle: string, i: int) {
    0 <= i <= |hay| - |needle| && hay[i..i + |needle|] == needle
  }

  /** `needle` occurs somewhere in `hay` as a contiguous piece. */
  predicate Contains(hay: string, needle: string) {
    exists i | 0 <= i <= |hay| - |needle| :: OccursAt(hay, needle, i)
  }

  /** The empty string occurs in every string. */
  lemma ContainsEmpty(hay: string)
    ensures Contains(hay, "")
  {
    assert OccursAt(hay, "", 0);
  }

  /** If a longer needle occurs, so does each of its prefixes. */
  lemma ContainsPrefix(hay: string, needle: string, more: string)
    requires Contains(hay, needle + more)
    ensures Contains(hay, needle)
  {
    var i :| 0 <= i <= |hay| - |needle + more| && OccursAt(hay, needle + more, i);
    assert hay[i..i + |needle|] == (needle + more)[..|needle|];
    assert OccursAt(hay, needle, i);
  }

  // ---------------------------------------------------------------------------
  // PHP explode(' ', s)

  /** The pieces of `s` between single spaces; consecutive spaces give empty
      pieces and a string without spaces is one piece. */
  function Explode(s: string): (parts: seq<string>)
    ensures |parts| >= 1
    ensures forall k | 0 <= k < |parts| :: ' ' !in parts[k]
    decreases |s|
  {
    if |s| == 0 then [""]
    else
      var rest := Explode(s[1..]);
      if s[0] == ' ' then [""] + rest
      else [[s[0]] + rest[0]] + rest[1..]
  }

  /** PHP `implode(' ', parts)`. */
  function Join(parts: seq<string>): string
    requires |parts| >= 1
    decreases |parts|
  {
    if |parts| == 1 then parts[0] else parts[0] + " " + Join(parts[1..])
  }

  /** Exploding and joining back on a single space restores the string. */
  lemma {:induction false} JoinExplode(s: string)
    ensures Join(Explode(s)) == s
    decreases |s|
  {
    if |s| > 0 {
      var rest := Explode(s[1..]);
      JoinExplode(s[1..]);
      if s[0] == ' ' {
        assert Explode(s) == [""] + rest;
        assert ([""] + rest)[1..] == rest;
        assert s == " " + s[1..];
      } else {
        var parts := [[s[0]] + rest[0]] + rest[1..];
        assert Explode(s) == parts;
        if |rest| == 1 {
          assert Join(parts) == [s[0]] + rest[0];
        } else {
          assert parts[1..] == rest[1..];
          assert Join(parts) == ([s[0]] + rest[0]) + " " + Join(rest[1..]);
          assert Join(rest) == rest[0] + " " + Join(rest[1..]);
        }
        assert s == [s[0]] + s[1..];
      }
    }
  }

  /** A string without spaces explodes into itself. */
  lemma {:induction false} ExplodeNoSpace(s: string)
    requires ' ' !in s
    ensures Explode(s) == [s]
    decreases |s|
  {
    if |s| > 0 {
      assert ' ' !in s[1..] by {
        assert forall k | 0 <= k < |s[1..]| :: s[1..][k] == s[k + 1];
      }
      ExplodeNoSpace(s[1..]);
      assert s == [s[0]] + s[1..];
    }
  }

  /** A space-free word followed by a space becomes its own first piece. */
  lemma {:induction false} ExplodeWord(word: string, tail: string)
    requires ' ' !in word
    ensures Explode(word + " " + tail) == [word] + Explode(tail)
    decreases |word|
  {
    if |word| == 0 {
      assert word + " " + tail == [' '] + tail;
      assert (word + " " + tail)[1..] == tail;
    } else {
      var s := word + " " + tail;
      assert s[1..] == word[1..] + " " + tail;
      assert ' ' !in word[1..] by {
        assert forall k | 0 <= k < |word[1..]| :: word[1..][k] == word[k + 1];
      }
      ExplodeWord(word[1..], tail);
      assert s[0] == word[0];
      assert [word[0]] + word[1..] == word;
    }
  }

  // ---------------------------------------------------------------------------
  // Laravel's `required` rule on a string

  /** The characters PHP's `trim` strips by default: space, tab, newline,
      carriage return, NUL and vertical tab. */
  predicate IsTrimmed(c: char) {
    c == ' ' || c == '\t' || c == '\n' || c == '\r' || c == 0 as char || c == 11 as char
  }

  /** `required` refuses a string whose `trim` is empty, so a string passes
      when some character survives trimming. */
  predicate Filled(s: string) {
    exists i | 0 <= i < |s| :: !IsTrimmed(s[i])
  }

  /** A filled string is in particular non-empty. */
  lemma FilledNonEmpty(s: string)
    requires Filled(s)
    ensures |s| > 0
  {
  }

  /** Padding keeps a filled string filled, and only white space never fills one. */
  lemma FilledPadded(pad: string, s: string)
    requires forall i | 0 <= i < |pad| :: IsTrimmed(pad[i])
    ensures Filled(pad + s + pad) <==> Filled(s)
    ensures !Filled(pad)
  {
    var t := pad + s + pad;
    if Filled(s) {
      var i :| 0 <= i < |s| && !IsTrimmed(s[i]);
      assert t[|pad| + i] == s[i];
    }
    if !Filled(s) {
      assert forall j | 0 <= j < |t| :: IsTrimmed(t[j]) by {
        forall j | 0 <= j < |t|
          ensures IsTrimmed(t[j])
        {
          if j < |pad| {
            assert t[j] == pad[j];
          } else if j < |pad| + |s| {
            assert t[j] == s[j - |pad|];
          } else {
            assert t[j] == pad[j - |pad| - |s|];
          }
        }
      }
    }
  }

  // ---------------------------------------------------------------------------
  // Decimal digits

  predicate IsDigit(c: char) {
    '0' <= c <= '9'
  }

  predicate AllDigits(s: string) {
    forall i | 0 <= i < |s| :: IsDigit(s[i])
  }

  function DigitChar(d: nat): (c: char)
    requires d < 10
  {
    ('0' as int + d) as char
  }

  /** The decimal spelling of `n`, most significant digit first, without
      leading zeros (PHP's string conversion of an integer). */
  function NatToString(n: nat): (r: string)
    ensures |r| >= 1 && AllDigits(r)
    decreases n
  {
    if n < 10 then [DigitChar(n)] else NatToString(n / 10) + [DigitChar(n % 10)]
  }

  /** The number a string of decimal digits spells. */
  function DigitsValue(ds: string): nat
    requires AllDigits(ds)
    decreases |ds|
  {
    if |ds| == 0 then 0
    else DigitsValue(ds[..|ds| - 1]) * 10 + (ds[|ds| - 1] as int - '0' as int)
  }

  /** Reading back the spelling of a number gives the number. */
  lemma {:induction false} DigitsRoundTrip(n: nat)
    ensures DigitsValue(NatToString(n)) == n
    decreases n
  {
    if n >= 10 {
      DigitsRoundTrip(n / 10);
      var s := NatToString(n);
      assert s[..|s| - 1] == NatToString(n / 10);
    }
  }

  /** The longest prefix of `s` made of digits. */
  function LeadingDigits(s: string): (r: string)
    ensures |r| <= |s| && r == s[..|r|] && AllDigits(r)
    ensures |r| < |s| ==> !IsDigit(s[|r|])
    decreases |s|
  {
    if |s| == 0 || !IsDigit(s[0]) then ""
    else [s[0]] + LeadingDigits(s[1..])
  }

  /** A string of digits is its own longest digit prefix. */
  lemma {:induction false} LeadingDigitsAll(s: string)
    requires AllDigits(s)
    ensures LeadingDigits(s) == s
    decreases |s|
  {
    if |s| > 0 {
      assert AllDigits(s[1..]) by {
        assert forall i | 0 <= i < |s[1..]| :: s[1..][i] == s[i + 1];
      }
      LeadingDigitsAll(s[1..]);
      assert s == [s[0]] + s[1..];
    }
  }

  function Pow10(k: nat): (r: nat)
    ensures r >= 1
  {
    if k == 0 then 1 else 10 * Pow10(k - 1)
  }
}
