/**
 * The small part of java.lang, java.util, java.io and the Plexus string utilities whose
 * behaviour the plugin's logic depends on, stated over Dafny strings.
 */
module JavaLib {
  import opened Wrappers

  // ----- Strings -----

  /** What `+` prints for a possibly-null String operand: a null reference prints as "null". */
  function JavaString(s: Option<string>): string
  {
    match s
    case None => "null"
    case Some(v) => v
  }

  /** `StringUtils.isEmpty`: null or the empty string. */
  predicate IsEmpty(s: Option<string>)
  {
    s.None? || s.value == ""
  }

  /** `String.endsWith`. */
  predicate EndsWith(s: string, suffix: string)
  {
    |suffix| <= |s| && s[|s| - |suffix|..] == suffix
  }

  /** `String.trim` removes every character at or below U+0020 from both ends. */
  predicate Blank(c: char)
  {
    c <= ' '
  }

  function LeadingBlanks(s: string): (n: nat)
    ensures n <= |s|
    ensures forall k :: 0 <= k < n ==> Blank(s[k])
    ensures n < |s| ==> !Blank(s[n])
  {
    if |s| == 0 || !Blank(s[0]) then 0 else 1 + LeadingBlanks(s[1..])
  }

  function TrailingBlanks(s: string): (n: nat)
    ensures n <= |s|
    ensures forall k :: |s| - n <= k < |s| ==> Blank(s[k])
    ensures n < |s| ==> !Blank(s[|s| - 1 - n])
  {
    if |s| == 0 || !Blank(s[|s| - 1]) then 0 else 1 + TrailingBlanks(s[..|s| - 1])
  }

  /** A string `String.trim` leaves alone: empty, or not blank at either end. */
  predicate Trimmed(s: string)
  {
    s == [] || (!Blank(s[0]) && !Blank(s[|s| - 1]))
  }

  /** `String.trim`. */
  function Trim(s: string): (r: string)
    ensures Trimmed(r)
    ensures |r| <= |s|
    ensures r == [] <==> forall k :: 0 <= k < |s| ==> Blank(s[k])
  {
    var lead := LeadingBlanks(s);
    if lead == |s| then [] else s[lead..|s| - TrailingBlanks(s)]
  }

  /** Trimming removes exactly the blank margins around a trimmed core. */
  lemma TrimStripsMargins(pre: string, core: string, post: string)
    requires forall k :: 0 <= k < |pre| ==> Blank(pre[k])
    requires forall k :: 0 <= k < |post| ==> Blank(post[k])
    requires Trimmed(core)
    ensures Trim(pre + core + post) == core
  {
    var s := pre + core + post;
    if core == [] {
      assert forall k :: 0 <= k < |s| ==> Blank(s[k]) by {
        forall k | 0 <= k < |s| ensures Blank(s[k]) {
          if k < |pre| { assert s[k] == pre[k]; } else { assert s[k] == post[k - |pre|]; }
        }
      }
    } else {
      assert forall k :: 0 <= k < |pre| ==> s[k] == pre[k];
      assert s[|pre|] == core[0];
      var lead := LeadingBlanks(s);
      assert lead == |pre|;
      assert forall k :: 0 <= k < |post| ==> s[|pre| + |core| + k] == post[k];
      assert s[|pre| + |core| - 1] == core[|core| - 1];
      var trail := TrailingBlanks(s);
      assert trail == |post|;
      assert s[lead..|s| - trail] == core;
    }
  }

  /** A string already trimmed is its own trim, so trimming is idempotent. */
  lemma TrimOfTrimmed(s: string)
    requires Trimmed(s)
    ensures Trim(s) == s
  {
    TrimStripsMargins([], s, []);
    assert [] + s + [] == s;
  }

  /**
   * The lower-case ASCII letter that `String.equalsIgnoreCase` identifies a character with:
   * the ASCII capitals, and the four non-ASCII characters that Java's per-character case rules
   * fold onto an ASCII letter (dotted and dotless I, long s, Kelvin sign). Any other character
   * is only equal to itself.
   */
  function FoldCase(c: char): char
  {
    if 'A' <= c <= 'Z' then (c as int + 32) as char
    else if c == '\U{0130}' || c == '\U{0131}' then 'i'
    else if c == '\U{017F}' then 's'
    else if c == '\U{212A}' then 'k'
    else c
  }

  /** `s.equalsIgnoreCase(literal)` for a literal spelled in lower-case ASCII letters. */
  predicate EqualsIgnoreCase(s: string, literal: string)
  {
    |s| == |literal| && forall i :: 0 <= i < |s| ==> FoldCase(s[i]) == literal[i]
  }

  /** `pattern` occurs in `text` starting at index `i`. */
  predicate OccursAt(text: string, pattern: string, i: int)
  {
    0 <= i <= |text| - |pattern| && text[i..i + |pattern|] == pattern
  }

  /** `pattern` occurs somewhere in `text`. */
  ghost predicate Contains(text: string, pattern: string)
  {
    exists i :: OccursAt(text, pattern, i)
  }

  /**
   * `StringUtils.replace(text, pattern, with)`: one left-to-right pass that replaces each
   * non-overlapping occurrence of `pattern`; the replacement text is not scanned again.
   */
  function Replace(text: string, pattern: string, with: string): string
    requires pattern != []
    decreases |text|
  {
    if |text| < |pattern| then text
    else if text[..|pattern|] == pattern then with + Replace(text[|pattern|..], pattern, with)
    else [text[0]] + Replace(text[1..], pattern, with)
  }

  /** A text without the pattern passes through unchanged. */
  lemma {:induction false} ReplaceWithoutOccurrence(text: string, pattern: string, with: string)
    requires pattern != []
    requires !Contains(text, pattern)
    ensures Replace(text, pattern, with) == text
    decreases |text|
  {
    if |text| >= |pattern| {
      assert !OccursAt(text, pattern, 0);
      assert text[0..0 + |pattern|] == text[..|pattern|];
      forall i | OccursAt(text[1..], pattern, i) ensures OccursAt(text, pattern, i + 1) {
        assert text[i + 1..i + 1 + |pattern|] == text[1..][i..i + |pattern|];
      }
      ReplaceWithoutOccurrence(text[1..], pattern, with);
      assert [text[0]] + text[1..] == text;
    }
  }

  /** A replacement no longer than the pattern never makes the text longer. */
  lemma {:induction false} ReplaceNeverGrows(text: string, pattern: string, with: string)
    requires pattern != [] && |with| <= |pattern|
    ensures |Replace(text, pattern, with)| <= |text|
    decreases |text|
  {
    if |text| >= |pattern| {
      if text[..|pattern|] == pattern {
        ReplaceNeverGrows(text[|pattern|..], pattern, with);
      } else {
        ReplaceNeverGrows(text[1..], pattern, with);
      }
    }
  }

  /** The first index of `c` in `s`, or -1 (`String.indexOf`). */
  function IndexOf(s: string, c: char): (i: int)
    ensures -1 <= i < |s|
    ensures i >= 0 ==> s[i] == c && c !in s[..i]
    ensures i == -1 ==> c !in s
  {
    if |s| == 0 then -1
    else if s[0] == c then 0
    else
      var j := IndexOf(s[1..], c);
      assert j >= 0 ==> s[1..][..j] == s[1..j + 1];
      if j < 0 then -1 else j + 1
  }

  /** The last index of `c` in `s`, or -1 (`String.lastIndexOf`). */
  function LastIndexOf(s: string, c: char): (i: int)
    ensures -1 <= i < |s|
    ensures i >= 0 ==> s[i] == c
    ensures forall k :: i < k < |s| ==> s[k] != c
  {
    if |s| == 0 then -1
    else if s[|s| - 1] == c then |s| - 1
    else LastIndexOf(s[..|s| - 1], c)
  }

  /** The last index of `c` is the one position holding `c` with none after it. */
  lemma LastIndexOfAt(s: string, c: char, j: nat)
    requires j < |s| && s[j] == c
    requires forall k :: j < k < |s| ==> s[k] != c
    ensures LastIndexOf(s, c) == j
  {
    var i := LastIndexOf(s, c);
    assert !(i < j);
  }

  /** The parts separated by `sep`, left to right. */
  function Join(parts: seq<string>, sep: char): string
  {
    if |parts| == 0 then ""
    else if |parts| == 1 then parts[0]
    else parts[0] + [sep] + Join(parts[1..], sep)
  }

  /** The pieces of `s` between occurrences of `sep`. */
  function Split(s: string, sep: char): (parts: seq<string>)
    ensures |parts| > 0
    decreases |s|
  {
    var i := IndexOf(s, sep);
    if i < 0 then [s] else [s[..i]] + Split(s[i + 1..], sep)
  }

  /** Appending one part adds one separator and that part at the end. */
  lemma {:induction false} JoinAppend(parts: seq<string>, last: string, sep: char)
    requires |parts| > 0
    ensures Join(parts + [last], sep) == Join(parts, sep) + [sep] + last
    decreases |parts|
  {
    if |parts| == 1 {
      assert (parts + [last])[1..] == [last];
    } else {
      assert (parts + [last])[1..] == parts[1..] + [last];
      JoinAppend(parts[1..], last, sep);
    }
  }

  /** Splitting undoes joining when no part contains the separator. */
  lemma {:induction false} SplitJoin(parts: seq<string>, sep: char)
    requires |parts| > 0
    requires forall k :: 0 <= k < |parts| ==> sep !in parts[k]
    ensures Split(Join(parts, sep), sep) == parts
    decreases |parts|
  {
    if |parts| > 1 {
      var rest := Join(parts[1..], sep);
      var s := parts[0] + [sep] + rest;
      var i := IndexOf(s, sep);
      assert s[|parts[0]|] == sep;
      assert forall k :: 0 <= k < |parts[0]| ==> s[k] == parts[0][k];
      assert s[..|parts[0]|] == parts[0];
      assert i == |parts[0]|;
      assert s[i + 1..] == rest;
      SplitJoin(parts[1..], sep);
    }
  }

  // ----- Locales -----

  /** `java.util.Locale`; the plugin compares locales by their language alone. */
  datatype Locale = Locale(language: string, country: string, variant: string)

  // ----- Files -----

  /** An abstract pathname, written as its path string. */
  type Path = string

  /** `new File(dir, name)`. */
  function Child(dir: Path, name: string): Path
  {
    dir + "/" + name
  }

  /** Two children of one name have the same parent only if they are the same child. */
  lemma ChildParentInjective(d1: Path, d2: Path, name: string)
    requires Child(d1, name) == Child(d2, name)
    ensures d1 == d2
  {
    assert |d1| == |d2|;
    assert d1 == Child(d1, name)[..|d1|];
    assert d2 == Child(d2, name)[..|d2|];
  }

  /** Two children of one directory are the same file only if they have the same name. */
  lemma ChildNameInjective(dir: Path, n1: string, n2: string)
    requires Child(dir, n1) == Child(dir, n2)
    ensures n1 == n2
  {
    assert n1 == Child(dir, n1)[|dir| + 1..];
    assert n2 == Child(dir, n2)[|dir| + 1..];
  }

  /** Text files on disk, by path. */
  class TextFiles {
    var contents: map<Path, string>

    constructor (contents: map<Path, string>)
      ensures this.contents == contents
    {
      this.contents := contents;
    }
  }
}
