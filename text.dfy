/** The string operations the debate orchestrator uses, with Python's `str`
    semantics: `lower()`, the `in` operator, `split(sep)`, `strip()`,
    `sep.join(parts)` and slicing `s[:n]`, plus counting which keywords of a
    list occur in a text. */
module Text {
  import opened Wrappers

  /** A sequence without repeated elements. */
  predicate NoDup<T(==)>(s: seq<T>) {
    forall i, j :: 0 <= i < j < |s| ==> s[i] != s[j]
  }

  /** The characters Python's `str.strip()` removes (`str.isspace()`). */
  predicate IsSpace(c: char) {
    c == ' ' || c == '\t' || c == '\n' || c == '\r' || c == '\U{000B}' || c == '\U{000C}'
    || ('\U{001C}' <= c <= '\U{001F}') || c == '\U{0085}' || c == '\U{00A0}'
    || c == '\U{1680}' || ('\U{2000}' <= c <= '\U{200A}') || c == '\U{2028}'
    || c == '\U{2029}' || c == '\U{202F}' || c == '\U{205F}' || c == '\U{3000}'
  }

  function LowerChar(c: char): char {
    if 'A' <= c <= 'Z' then (c as int - 'A' as int + 'a' as int) as char else c
  }

  /** `s.lower()` on the ASCII letters. */
  function Lower(s: string): (r: string)
    ensures |r| == |s|
    ensures forall i :: 0 <= i < |s| ==> r[i] == LowerChar(s[i])
  {
    seq(|s|, i requires 0 <= i < |s| => LowerChar(s[i]))
  }

  /** Python's `pat in text`. */
  function Contains(text: string, pat: string): bool
    decreases |text|
  {
    pat <= text || (|text| > 0 && Contains(text[1..], pat))
  }

  /** `pat` occurs in `text` starting at offset `i`. */
  predicate OccursAt(text: string, pat: string, i: int) {
    0 <= i <= |text| - |pat| && text[i..i + |pat|] == pat
  }

  /** `pat in text` holds exactly when `pat` occurs at some offset of `text`. */
  lemma {:induction false} ContainsAt(text: string, pat: string)
    ensures Contains(text, pat) <==> exists i :: OccursAt(text, pat, i)
    decreases |text|
  {
    if pat <= text {
      assert OccursAt(text, pat, 0);
    } else if |text| > 0 {
      ContainsAt(text[1..], pat);
      if Contains(text, pat) {
        var i :| OccursAt(text[1..], pat, i);
        assert text[i + 1..i + 1 + |pat|] == text[1..][i..i + |pat|];
        assert OccursAt(text, pat, i + 1);
      }
      if exists i :: OccursAt(text, pat, i) {
        var i :| OccursAt(text, pat, i);
        if i > 0 {
          assert text[1..][i - 1..i - 1 + |pat|] == text[i..i + |pat|];
          assert OccursAt(text[1..], pat, i - 1);
        }
      }
    }
  }

  /** `s.split(sep)`: the maximal runs between separators, empty runs included. */
  function Split(s: string, sep: char): (parts: seq<string>)
    ensures |parts| >= 1
    ensures forall k :: 0 <= k < |parts| ==> sep !in parts[k]
    decreases |s|
  {
    if |s| == 0 then [""]
    else
      var rest := Split(s[1..], sep);
      if s[0] == sep then [""] + rest
      else [[s[0]] + rest[0]] + rest[1..]
  }

  /** `sep.join(parts)`. */
  function Join(parts: seq<string>, sep: string): string {
    if |parts| == 0 then ""
    else if |parts| == 1 then parts[0]
    else parts[0] + sep + Join(parts[1..], sep)
  }

  /** Splitting on a character and joining with it gives the string back. */
  lemma {:induction false} JoinSplit(s: string, sep: char)
    ensures Join(Split(s, sep), [sep]) == s
    decreases |s|
  {
    if |s| > 0 {
      var rest := Split(s[1..], sep);
      JoinSplit(s[1..], sep);
      if s[0] == sep {
        assert ([""] + rest)[1..] == rest;
      } else {
        var parts := [[s[0]] + rest[0]] + rest[1..];
        if |rest| == 1 {
          assert Join(rest, [sep]) == rest[0];
        } else {
          assert parts[1..] == rest[1..];
          assert Join(rest, [sep]) == rest[0] + [sep] + Join(rest[1..], [sep]);
          assert Join(parts, [sep]) == [s[0]] + rest[0] + [sep] + Join(rest[1..], [sep]);
        }
        assert s == [s[0]] + s[1..];
      }
    }
  }

  /** Number of leading whitespace characters of `s`. */
  function LeadingSpace(s: string): (n: nat)
    ensures n <= |s|
    ensures forall k :: 0 <= k < n ==> IsSpace(s[k])
    ensures n < |s| ==> !IsSpace(s[n])
  {
    if |s| == 0 || !IsSpace(s[0]) then 0 else 1 + LeadingSpace(s[1..])
  }

  /** Length of `s` once its trailing whitespace is removed. */
  function TrimmedEnd(s: string): (n: nat)
    ensures n <= |s|
    ensures forall k :: n <= k < |s| ==> IsSpace(s[k])
    ensures n > 0 ==> !IsSpace(s[n - 1])
  {
    if |s| == 0 || !IsSpace(s[|s| - 1]) then |s| else TrimmedEnd(s[..|s| - 1])
  }

  /** `r` is `s` with only whitespace removed before offset `i` and after `r`. */
  predicate StripsTo(s: string, r: string, i: int) {
    0 <= i <= |s| - |r| && s[i..i + |r|] == r
    && (forall k :: 0 <= k < i ==> IsSpace(s[k]))
    && (forall k :: i + |r| <= k < |s| ==> IsSpace(s[k]))
  }

  /** `s.strip()`: a slice of `s` that neither starts nor ends with whitespace,
      obtained by removing only whitespace. */
  function Strip(s: string): (r: string)
    ensures |r| <= |s|
    ensures |r| > 0 ==> !IsSpace(r[0]) && !IsSpace(r[|r| - 1])
    ensures exists i :: StripsTo(s, r, i)
  {
    var hi := TrimmedEnd(s);
    var lo := if hi == 0 then 0 else LeadingSpace(s[..hi]);
    assert StripsTo(s, s[lo..hi], lo);
    s[lo..hi]
  }

  /** `s[:n]` for a non-negative `n`. */
  function Take<T>(s: seq<T>, n: nat): (r: seq<T>)
    ensures |r| == Min(n, |s|) && r <= s
  {
    s[..Min(n, |s|)]
  }

  /** How many of `cues` occur in `text`:
      `sum(1 for keyword in cues if keyword in text)`. */
  function CountPresent(cues: seq<string>, text: string): nat {
    if |cues| == 0 then 0
    else CountPresent(cues[..|cues| - 1], text) + (if Contains(text, cues[|cues| - 1]) then 1 else 0)
  }

  /** `any(keyword in text for keyword in cues)`. */
  predicate AnyPresent(cues: seq<string>, text: string) {
    exists k :: 0 <= k < |cues| && Contains(text, cues[k])
  }

  /** The distinct keywords of `cues` that occur in `text`. */
  ghost function PresentSet(cues: seq<string>, text: string): set<string> {
    set c | c in cues && Contains(text, c)
  }

  /** For a keyword list without repeats, the count is the number of distinct
      keywords present, so each keyword counts at most once per text. */
  lemma {:induction false} CountPresentIsCard(cues: seq<string>, text: string)
    requires NoDup(cues)
    ensures CountPresent(cues, text) == |PresentSet(cues, text)|
    decreases |cues|
  {
    if |cues| > 0 {
      var init, c := cues[..|cues| - 1], cues[|cues| - 1];
      assert NoDup(init);
      CountPresentIsCard(init, text);
      assert c !in init;
      assert cues == init + [c];
      if Contains(text, c) {
        assert PresentSet(cues, text) == PresentSet(init, text) + {c};
      } else {
        assert PresentSet(cues, text) == PresentSet(init, text);
      }
    }
  }

  /** `list(set(xs))` with one element per distinct value (first occurrences kept). */
  function Distinct(xs: seq<string>): (r: seq<string>)
    ensures NoDup(r)
    ensures forall x :: x in r <==> x in xs
  {
    if |xs| == 0 then []
    else
      var d := Distinct(xs[..|xs| - 1]);
      var x := xs[|xs| - 1];
      assert xs == xs[..|xs| - 1] + [x];
      if x in d then d else d + [x]
  }

  /** A sequence without repeats has as many distinct values as elements. */
  lemma {:induction false} NoDupCard(s: seq<string>)
    requires NoDup(s)
    ensures |set x | x in s| == |s|
    decreases |s|
  {
    if |s| > 0 {
      var init := s[..|s| - 1];
      assert NoDup(init);
      NoDupCard(init);
      assert s == init + [s[|s| - 1]];
      assert s[|s| - 1] !in init;
      assert (set x | x in s) == (set x | x in init) + {s[|s| - 1]};
    }
  }
}
