/** Removal of Minecraft formatting codes from chat text: the replacement of
    every match of the global, case-insensitive pattern `§[0-9a-fklmnor]` by
    the empty string. */
module Colors {

  /** The section sign that introduces a formatting code. */
  const Section: char := '\U{00A7}'

  /** The members of the pattern's character class, as written. */
  const CodeClass: string := "0123456789abcdefklmnor"

  /** Case folding of a case-insensitive, non-Unicode JavaScript pattern: the
      upper-case form of a letter. Non-ASCII characters never fold onto an
      ASCII character, so they are left as they are. */
  function Canonicalize(c: char): char
  {
    if 'a' <= c <= 'z' then (c as int - 32) as char else c
  }

  /** A character matches the case-insensitive class exactly when it folds
      onto the folding of one of the class's members. */
  ghost predicate MatchesClassIgnoringCase(c: char)
  {
    exists j :: 0 <= j < |CodeClass| && Canonicalize(CodeClass[j]) == Canonicalize(c)
  }

  /** The code characters: digits, `a`-`f`, `k`-`o` and `r`, in either case,
      which is exactly the case-insensitive class. */
  function IsCode(c: char): (b: bool)
    ensures b <==> MatchesClassIgnoringCase(c)
  {
    CodeRangesMatchClass(c);
    InCodeRanges(c)
  }

  predicate InCodeRanges(c: char)
  {
    '0' <= c <= '9' || 'a' <= c <= 'f' || 'A' <= c <= 'F' ||
    'k' <= c <= 'o' || 'K' <= c <= 'O' || c == 'r' || c == 'R'
  }

  /** The written-out ranges are exactly the case-insensitive class. */
  lemma CodeRangesMatchClass(c: char)
    ensures InCodeRanges(c) <==> MatchesClassIgnoringCase(c)
  {
    if InCodeRanges(c) {
      var j := if '0' <= c <= '9' then c as int - '0' as int
        else if 'a' <= c <= 'f' then 10 + (c as int - 'a' as int)
        else if 'A' <= c <= 'F' then 10 + (c as int - 'A' as int)
        else if 'k' <= c <= 'o' then 16 + (c as int - 'k' as int)
        else if 'K' <= c <= 'O' then 16 + (c as int - 'K' as int)
        else 21;
      assert Canonicalize(CodeClass[j]) == Canonicalize(c);
    }
    if MatchesClassIgnoringCase(c) {
      var j :| 0 <= j < |CodeClass| && Canonicalize(CodeClass[j]) == Canonicalize(c);
      assert InCodeRanges(c);
    }
  }

  /** Replace every match of the pattern by nothing: scan left to right; a section
      sign followed by a code character is dropped together with it, and the
      scan resumes after the pair; every other character is kept. */
  function StripColors(s: string): (r: string)
    ensures |r| <= |s|
    ensures Section !in s ==> r == s
    decreases |s|
  {
    if |s| == 0 then []
    else if s[0] == Section && |s| >= 2 && IsCode(s[1]) then StripColors(s[2..])
    else [s[0]] + StripColors(s[1..])
  }

  /** Some section sign is immediately followed by a code character. */
  ghost predicate HasCode(s: string)
  {
    exists i :: 0 <= i < |s| - 1 && s[i] == Section && IsCode(s[i + 1])
  }

  /** Stripping changes a string exactly when it contains a code, and then
      it makes the string strictly shorter. */
  lemma {:induction false} StripChangesIffHasCode(s: string)
    ensures StripColors(s) == s <==> !HasCode(s)
    ensures HasCode(s) ==> |StripColors(s)| < |s|
    decreases |s|
  {
    if |s| == 0 {
    } else if s[0] == Section && |s| >= 2 && IsCode(s[1]) {
      assert HasCode(s) by { assert s[0] == Section && IsCode(s[0 + 1]); }
    } else {
      StripChangesIffHasCode(s[1..]);
      if HasCode(s) {
        var i :| 0 <= i < |s| - 1 && s[i] == Section && IsCode(s[i + 1]);
        assert i != 0;
        assert s[1..][i - 1] == Section && IsCode(s[1..][i]);
      } else {
        forall i | 0 <= i < |s| - 2
          ensures !(s[1..][i] == Section && IsCode(s[1..][i + 1]))
        {
          assert s[1..][i] == s[i + 1] && s[1..][i + 1] == s[i + 2];
        }
        assert s == [s[0]] + s[1..];
      }
    }
  }

  /** `r` is obtained from `s` by deleting characters, keeping the order of the rest. */
  predicate IsSubsequence(r: string, s: string)
    decreases |s|
  {
    if |s| == 0 then |r| == 0
    else (|r| > 0 && r[0] == s[0] && IsSubsequence(r[1..], s[1..])) || IsSubsequence(r, s[1..])
  }

  /** Stripping only deletes: the kept characters appear in their original order. */
  lemma {:induction false} StripIsSubsequence(s: string)
    ensures IsSubsequence(StripColors(s), s)
    decreases |s|
  {
    if |s| == 0 {
    } else if s[0] == Section && |s| >= 2 && IsCode(s[1]) {
      StripIsSubsequence(s[2..]);
      assert s[1..][1..] == s[2..];
    } else {
      StripIsSubsequence(s[1..]);
      var r := StripColors(s);
      assert r[0] == s[0] && r[1..] == StripColors(s[1..]);
    }
  }

  /** The scan never matches across the end of `a` unless `a` ends in a
      section sign, so `a` and `b` are stripped independently. */
  lemma {:induction false} StripAppend(a: string, b: string)
    requires |a| == 0 || a[|a| - 1] != Section
    ensures StripColors(a + b) == StripColors(a) + StripColors(b)
    decreases |a|
  {
    if |a| == 0 {
      assert a + b == b;
    } else if a[0] == Section && |a| >= 2 && IsCode(a[1]) {
      assert (a + b)[0] == Section && (a + b)[1] == a[1];
      assert (a + b)[2..] == a[2..] + b;
      StripAppend(a[2..], b);
    } else {
      assert (a + b)[0] == a[0];
      if a[0] == Section {
        assert |a| >= 2 && !IsCode(a[1]);
        assert (a + b)[1] == a[1];
      }
      assert (a + b)[1..] == a[1..] + b;
      StripAppend(a[1..], b);
      assert [a[0]] + StripColors(a[1..]) + StripColors(b)
          == [a[0]] + (StripColors(a[1..]) + StripColors(b));
    }
  }

  /** A formatting code inserted anywhere not directly after a section sign
      disappears again: it does not change the stripped text. */
  lemma InsertedCodeVanishes(a: string, code: char, b: string)
    requires |a| == 0 || a[|a| - 1] != Section
    requires IsCode(code)
    ensures StripColors(a + [Section, code] + b) == StripColors(a + b)
  {
    assert a + [Section, code] + b == a + ([Section, code] + b);
    StripAppend(a, [Section, code] + b);
    assert ([Section, code] + b)[2..] == b;
    StripAppend(a, b);
  }

  /** Stripping is not idempotent: a second pass can find a code the first
      pass produced by deleting the pair between a section sign and its code. */
  lemma NotIdempotent()
    ensures StripColors([Section, Section, 'a', 'a']) == [Section, 'a']
    ensures StripColors([Section, 'a']) == []
  {
    assert [Section, Section, 'a', 'a'][1..] == [Section, 'a', 'a'];
    assert [Section, 'a', 'a'][2..] == ['a'];
    assert ['a'][1..] == [];
    assert [Section, 'a'][2..] == [];
  }

  /** The same replacement as the regular-expression engine performs it:
      a cursor walks the input, a match advances it by two and emits nothing,
      a non-match copies one character and advances by one. */
  method ReplaceAllScan(s: string) returns (r: string)
    ensures r == StripColors(s)
  {
    r := [];
    var i := 0;
    while i < |s|
      invariant 0 <= i <= |s|
      invariant r + StripColors(s[i..]) == StripColors(s)
      decreases |s| - i
    {
      if s[i] == Section && i + 1 < |s| && IsCode(s[i + 1]) {
        assert s[i..][2..] == s[i + 2..];
        i := i + 2;
      } else {
        assert s[i..][1..] == s[i + 1..];
        r := r + [s[i]];
        i := i + 1;
      }
    }
  }
}
