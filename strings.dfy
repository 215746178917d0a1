/**
 * The three string operations the dashboard relies on, restricted to ASCII:
 * Python's substring test (`sub in s`, `Series.str.contains` with a plain
 * literal pattern), removal of every `\s` character (`re.sub(r'\s+', '', s)`),
 * and `str.title()`.
 */
module Strings {
  import opened Seqs

  // ---------------------------------------------------------------- substring

  /** `sub` occurs in `s` starting at index `i`. */
  predicate OccursAt(s: string, sub: string, i: int)
  {
    0 <= i && i + |sub| <= |s| && s[i..i + |sub|] == sub
  }

  /** Python's `sub in s`: case-sensitive, and the empty string occurs everywhere. */
  function Contains(s: string, sub: string): bool
    decreases |s|
  {
    if sub <= s then true
    else if |s| == 0 then false
    else Contains(s[1..], sub)
  }

  /** `Contains` answers exactly whether `sub` occurs at some position of `s`. */
  lemma {:induction false} ContainsIffOccurs(s: string, sub: string)
    ensures Contains(s, sub) <==> exists i :: OccursAt(s, sub, i)
    decreases |s|
  {
    if sub <= s {
      assert OccursAt(s, sub, 0);
    } else if |s| == 0 {
      assert forall i :: !OccursAt(s, sub, i);
    } else {
      ContainsIffOccurs(s[1..], sub);
      forall i | OccursAt(s[1..], sub, i)
        ensures OccursAt(s, sub, i + 1)
      {
        assert s[1..][i..i + |sub|] == s[i + 1..i + 1 + |sub|];
      }
      forall i | OccursAt(s, sub, i)
        ensures i > 0 && OccursAt(s[1..], sub, i - 1)
      {
        if i == 0 {
          assert false;
        }
        assert s[1..][i - 1..i - 1 + |sub|] == s[i..i + |sub|];
      }
    }
  }

  /** A string in which the first character of `sub` never appears does not contain `sub`. */
  lemma FirstCharAbsent(s: string, sub: string)
    requires |sub| > 0 && sub[0] !in s
    ensures !Contains(s, sub)
  {
  }

  /** A witnessed occurrence makes `Contains` true. */
  lemma OccursContains(s: string, sub: string, i: int)
    requires OccursAt(s, sub, i)
    ensures Contains(s, sub)
  {
    ContainsIffOccurs(s, sub);
  }

  // --------------------------------------------------------------- whitespace

  /** The ASCII characters Python's `\s` matches in a `str` pattern: tab, line feed,
      vertical tab, form feed, carriage return (9-13), the four separators 0x1C-0x1F
      and space (28-32). */
  predicate IsSpace(c: char)
  {
    (9 <= c as int <= 13) || (28 <= c as int <= 32)
  }

  predicate NoSpace(s: string)
  {
    forall i :: 0 <= i < |s| ==> !IsSpace(s[i])
  }

  /** `re.sub(r'\s+', '', s)`: deleting every run of whitespace deletes every whitespace character. */
  function RemoveSpace(s: string): string
  {
    if |s| == 0 then []
    else (if IsSpace(s[0]) then [] else [s[0]]) + RemoveSpace(s[1..])
  }

  /** The result holds no whitespace, and every non-whitespace character of `s` survives,
      once each and in its original order: the result is the subsequence of `s` made of
      its non-whitespace characters. */
  lemma {:induction false} RemoveSpaceSpec(s: string)
    ensures NoSpace(RemoveSpace(s))
    ensures |RemoveSpace(s)| <= |s|
    ensures forall c :: c in RemoveSpace(s) <==> c in s && !IsSpace(c)
    ensures IsSubsequence(RemoveSpace(s), s)
    ensures |RemoveSpace(s)| == Count((c: char) => !IsSpace(c), s)
  {
    if |s| > 0 {
      RemoveSpaceSpec(s[1..]);
      var head := if IsSpace(s[0]) then [] else [s[0]];
      assert RemoveSpace(s) == head + RemoveSpace(s[1..]);
      forall c ensures c in s <==> c == s[0] || c in s[1..] {
        assert s == [s[0]] + s[1..];
      }
      if IsSpace(s[0]) {
        assert RemoveSpace(s) == RemoveSpace(s[1..]);
      } else {
        assert RemoveSpace(s)[0] == s[0] && RemoveSpace(s)[1..] == RemoveSpace(s[1..]);
      }
    }
  }

  /** A string without whitespace is left as it is. */
  lemma {:induction false} RemoveSpaceNoop(s: string)
    requires NoSpace(s)
    ensures RemoveSpace(s) == s
  {
    if |s| > 0 {
      assert !IsSpace(s[0]);
      RemoveSpaceNoop(s[1..]);
    }
  }

  // ------------------------------------------------------------------- title

  /** A cased character in the ASCII range: a letter. */
  predicate IsCased(c: char)
  {
    ('A' <= c <= 'Z') || ('a' <= c <= 'z')
  }

  function Upper(c: char): char
  {
    if 'a' <= c <= 'z' then (c as int - 32) as char else c
  }

  function Lower(c: char): char
  {
    if 'A' <= c <= 'Z' then (c as int + 32) as char else c
  }

  /** `str.title()` continued after a character whose casedness is `prevCased`:
      a character is lower-cased when the one before it is cased, and upper-cased otherwise. */
  function TitleFrom(s: string, prevCased: bool): string
  {
    if |s| == 0 then []
    else [if prevCased then Lower(s[0]) else Upper(s[0])] + TitleFrom(s[1..], IsCased(s[0]))
  }

  /** Python's `str.title()` on ASCII text. */
  function Title(s: string): string
  {
    TitleFrom(s, false)
  }

  /** Position by position: upper-case at the start of the string and after an uncased
      character, lower-case after a cased one. */
  lemma {:induction false} TitleFromAt(s: string, prevCased: bool, i: int)
    requires 0 <= i < |s|
    ensures |TitleFrom(s, prevCased)| == |s|
    ensures TitleFrom(s, prevCased)[i]
         == if (if i == 0 then prevCased else IsCased(s[i - 1])) then Lower(s[i]) else Upper(s[i])
  {
    if i == 0 {
      TitleFromLength(s[1..], IsCased(s[0]));
    } else {
      TitleFromAt(s[1..], IsCased(s[0]), i - 1);
    }
  }

  lemma {:induction false} TitleFromLength(s: string, prevCased: bool)
    ensures |TitleFrom(s, prevCased)| == |s|
  {
    if |s| > 0 {
      TitleFromLength(s[1..], IsCased(s[0]));
    }
  }

  lemma TitleAt(s: string, i: int)
    requires 0 <= i < |s|
    ensures |Title(s)| == |s|
    ensures Title(s)[i] == if i > 0 && IsCased(s[i - 1]) then Lower(s[i]) else Upper(s[i])
  {
    TitleFromAt(s, false, i);
  }

  /** Title-casing changes only the case of letters: whitespace stays whitespace. */
  lemma {:induction false} TitleFromKeepsNoSpace(s: string, prevCased: bool)
    requires NoSpace(s)
    ensures NoSpace(TitleFrom(s, prevCased))
  {
    if |s| > 0 {
      assert !IsSpace(s[0]);
      TitleFromKeepsNoSpace(s[1..], IsCased(s[0]));
    }
  }

  /** Title-casing a title-cased string changes nothing. */
  lemma {:induction false} TitleFromIdempotent(s: string, prevCased: bool)
    ensures TitleFrom(TitleFrom(s, prevCased), prevCased) == TitleFrom(s, prevCased)
  {
    if |s| > 0 {
      var t := TitleFrom(s, prevCased);
      var c := if prevCased then Lower(s[0]) else Upper(s[0]);
      assert t[0] == c && t[1..] == TitleFrom(s[1..], IsCased(s[0]));
      assert IsCased(c) == IsCased(s[0]);
      TitleFromIdempotent(s[1..], IsCased(s[0]));
    }
  }

  lemma TitleIdempotent(s: string)
    ensures Title(Title(s)) == Title(s)
  {
    TitleFromIdempotent(s, false);
  }
}
