/**
 * The slug pipeline of lib/utils.ts. `slugize` cuts its input at the first
 * " (", transliterates a fixed set of accented letters, lower-cases, turns
 * every run of characters outside `[a-z0-9\-_]` into one "-", and finally
 * deletes every match of the regular expression `-{2,}|^-|-$`.
 *
 * Characters are Unicode code points (Dafny `char`).
 */
module Slug {

  // ---------------------------------------------------------------------------
  // Character classes
  // ---------------------------------------------------------------------------

  /** A character a slug may contain: `a-z`, `0-9`, `-` or `_`. */
  predicate IsSlugChar(c: char)
  {
    ('a' <= c <= 'z') || ('0' <= c <= '9') || c == '-' || c == '_'
  }

  predicate IsAsciiUpper(c: char)
  {
    'A' <= c <= 'Z'
  }

  /**
   * Membership in the class `[a-z0-9\-_]` of a regular expression with the
   * `i` flag and without `u`: case-insensitive matching adds `A-Z`, and never
   * lets a character above U+007F match an ASCII class member.
   */
  predicate InSlugClass(c: char)
  {
    IsSlugChar(c) || IsAsciiUpper(c)
  }

  predicate AllSlugChars(s: string)
  {
    forall i :: 0 <= i < |s| ==> IsSlugChar(s[i])
  }

  predicate NoAsciiUpper(s: string)
  {
    forall i :: 0 <= i < |s| ==> !IsAsciiUpper(s[i])
  }

  predicate NoDoubleDash(s: string)
  {
    forall i :: 0 <= i < |s| - 1 ==> !(s[i] == '-' && s[i + 1] == '-')
  }

  /** Neither starts nor ends with "-" and never holds "--". */
  predicate Tidy(s: string)
  {
    NoDoubleDash(s) && (|s| > 0 ==> s[0] != '-' && s[|s| - 1] != '-')
  }

  /** The shape every slug has. */
  predicate IsSlug(s: string)
  {
    AllSlugChars(s) && Tidy(s)
  }

  // ---------------------------------------------------------------------------
  // canBeSlugized and split(" (")[0]
  // ---------------------------------------------------------------------------

  /** The two characters " (" start at index `i` of `s`. */
  predicate OpensAt(s: string, i: int)
  {
    0 <= i && i + 1 < |s| && s[i] == ' ' && s[i + 1] == '('
  }

  /** The index of the first " (" in `s`, or `|s|` when there is none. */
  function FirstOpen(s: string): (n: nat)
    ensures n <= |s|
    ensures n < |s| ==> OpensAt(s, n)
    ensures forall i :: 0 <= i < n ==> !OpensAt(s, i)
  {
    if |s| < 2 then |s|
    else if s[0] == ' ' && s[1] == '(' then 0
    else
      var n := 1 + FirstOpen(s[1..]);
      assert forall i :: 1 <= i < |s| ==> (OpensAt(s, i) <==> OpensAt(s[1..], i - 1));
      n
  }

  /** `value.includes(" (")`. */
  function CanBeSlugized(value: string): (r: bool)
    ensures r <==> exists i :: OpensAt(value, i)
  {
    FirstOpen(value) < |value|
  }

  /** `str.split(" (")[0]`: everything before the first " (". */
  function Head(s: string): string
  {
    s[..FirstOpen(s)]
  }

  /** `canBeSlugized` says exactly whether `slugize` cuts anything off its input. */
  lemma CanBeSlugizedIffHeadCuts(value: string)
    ensures CanBeSlugized(value) <==> Head(value) != value
  {
    if FirstOpen(value) < |value| {
      assert |Head(value)| < |value|;
    }
  }

  /** `Head` finds the least index of " (". */
  lemma FirstOpenIsLeast(s: string, i: nat)
    requires OpensAt(s, i)
    requires forall j :: 0 <= j < i ==> !OpensAt(s, j)
    ensures FirstOpen(s) == i
  {
  }

  /** Whatever follows the first " (" is dropped. */
  lemma HeadOfOpen(a: string, b: string)
    requires !CanBeSlugized(a)
    ensures Head(a + " (" + b) == a
  {
    var s := a + " (" + b;
    forall j | 0 <= j < |a|
      ensures !OpensAt(s, j)
    {
      if j + 1 < |a| {
        assert !OpensAt(a, j);
      } else {
        assert s[j + 1] == ' ';
      }
    }
    assert OpensAt(s, |a|);
    FirstOpenIsLeast(s, |a|);
  }

  // ---------------------------------------------------------------------------
  // transliterate
  // ---------------------------------------------------------------------------

  /** The transliteration table: lower-case accented letters to their base letters. */
  const TransliterationMap: map<char, char> := map[
    '\U{E1}' := 'a', '\U{E0}' := 'a', '\U{E3}' := 'a', '\U{E2}' := 'a', '\U{E4}' := 'a',
    '\U{E9}' := 'e', '\U{E8}' := 'e', '\U{EA}' := 'e', '\U{EB}' := 'e',
    '\U{ED}' := 'i', '\U{EC}' := 'i', '\U{EE}' := 'i', '\U{EF}' := 'i',
    '\U{F3}' := 'o', '\U{F2}' := 'o', '\U{F5}' := 'o', '\U{F4}' := 'o', '\U{F6}' := 'o',
    '\U{FA}' := 'u', '\U{F9}' := 'u', '\U{FB}' := 'u', '\U{FC}' := 'u',
    '\U{FD}' := 'y', '\U{FF}' := 'y', '\U{F1}' := 'n', '\U{E7}' := 'c'
  ]

  /** The callback of `replace(/[^\u0000-~]/g, (c) => map[c] || c)`. */
  function TransliterateChar(c: char): char
  {
    if c <= '~' then c
    else if c in TransliterationMap then TransliterationMap[c]
    else c
  }

  function Transliterate(s: string): string
  {
    seq(|s|, i requires 0 <= i < |s| => TransliterateChar(s[i]))
  }

  /**
   * `transliterate` keeps the length, leaves `\u0000-~` alone, maps each
   * listed letter to its base letter and passes every other character through.
   */
  lemma TransliterateSpec(s: string)
    ensures |Transliterate(s)| == |s|
    ensures forall i :: 0 <= i < |s| && s[i] <= '~' ==> Transliterate(s)[i] == s[i]
    ensures forall i :: 0 <= i < |s| && s[i] in TransliterationMap ==>
      Transliterate(s)[i] == TransliterationMap[s[i]]
    ensures forall i :: 0 <= i < |s| && s[i] !in TransliterationMap ==> Transliterate(s)[i] == s[i]
  {
  }

  /**
   * The table holds only lower-case letters of the Latin-1 block
   * (U+00E0 to U+00FF), each sent to an ASCII letter.
   */
  lemma TransliterationMapIsLowerCase()
    ensures forall c :: c in TransliterationMap ==> '\U{E0}' <= c <= '\U{FF}' && c != '\U{F7}'
    ensures forall c :: c in TransliterationMap ==> 'a' <= TransliterationMap[c] <= 'z'
  {
  }

  // ---------------------------------------------------------------------------
  // toLowerCase
  // ---------------------------------------------------------------------------

  /**
   * `toLowerCase` of one character. ASCII upper-case letters become lower-case;
   * the two characters outside ASCII whose lower-case form holds ASCII letters
   * are spelled out (KELVIN SIGN becomes "k", CAPITAL I WITH DOT ABOVE becomes
   * "i" and a combining dot). Every other character outside ASCII is kept: its
   * real lower-case form lies outside ASCII as well, and the rest of the
   * pipeline treats all such characters alike.
   */
  function LowerChar(c: char): string
  {
    if IsAsciiUpper(c) then [(c as int + 32) as char]
    else if c == '\U{212A}' then "k"
    else if c == '\U{130}' then "i\U{307}"
    else [c]
  }

  function ToLowerCase(s: string): string
  {
    if s == [] then [] else LowerChar(s[0]) + ToLowerCase(s[1..])
  }

  lemma {:induction false} ToLowerCaseHasNoUpper(s: string)
    ensures NoAsciiUpper(ToLowerCase(s))
  {
    if s != [] {
      ToLowerCaseHasNoUpper(s[1..]);
      var h, t := LowerChar(s[0]), ToLowerCase(s[1..]);
      assert NoAsciiUpper(h);
      forall i | 0 <= i < |h + t|
        ensures !IsAsciiUpper((h + t)[i])
      {
        if i >= |h| {
          assert (h + t)[i] == t[i - |h|];
        }
      }
    }
  }

  // ---------------------------------------------------------------------------
  // replace(/[^a-z0-9\-_]+/gi, "-")
  // ---------------------------------------------------------------------------

  /**
   * Every maximal run of characters outside the class becomes one "-".
   * `inRun` says that the character before `s` was outside the class and
   * has already been replaced.
   */
  function Separate(s: string, inRun: bool): string
  {
    if s == [] then []
    else if InSlugClass(s[0]) then [s[0]] + Separate(s[1..], false)
    else if inRun then Separate(s[1..], true)
    else "-" + Separate(s[1..], true)
  }

  /** On lower-cased text, every character left after the replacement is a slug character. */
  lemma {:induction false} SeparateGivesSlugChars(s: string, inRun: bool)
    requires NoAsciiUpper(s)
    ensures AllSlugChars(Separate(s, inRun))
  {
    if s != [] {
      assert NoAsciiUpper(s[1..]) by {
        forall i | 0 <= i < |s[1..]| ensures !IsAsciiUpper(s[1..][i]) {
          assert s[1..][i] == s[i + 1];
        }
      }
      SeparateGivesSlugChars(s[1..], !InSlugClass(s[0]));
    }
  }

  /** Text made only of slug characters passes the replacement unchanged. */
  lemma {:induction false} SeparateKeepsSlugChars(s: string, inRun: bool)
    requires AllSlugChars(s)
    ensures Separate(s, inRun) == s
  {
    if s != [] {
      SeparateKeepsSlugChars(s[1..], false);
      assert [s[0]] + s[1..] == s;
    }
  }

  // ---------------------------------------------------------------------------
  // replace(/-{2,}|^-|-$/g, "")
  // ---------------------------------------------------------------------------

  /** The length of the run of "-" that `s` starts with. */
  function DashRun(s: string): (n: nat)
    ensures n <= |s|
    ensures forall k :: 0 <= k < n ==> s[k] == '-'
    ensures n < |s| ==> s[n] != '-'
  {
    if s != [] && s[0] == '-' then 1 + DashRun(s[1..]) else 0
  }

  /**
   * The global replacement as the regular-expression engine runs it over the
   * rest `t` of the string; `atStart` says that `t` is the whole string. The
   * alternatives are tried in order: `-{2,}` greedily, then `^-` (only at the
   * start), then `-$` (only on the last character); a match is deleted and the
   * search resumes after it, otherwise the character is kept.
   */
  function StripFrom(t: string, atStart: bool): string
    decreases |t|
  {
    if t == [] then []
    else if DashRun(t) >= 2 then StripFrom(t[DashRun(t)..], false)
    else if atStart && t[0] == '-' then StripFrom(t[1..], false)
    else if |t| == 1 && t[0] == '-' then StripFrom(t[1..], false)
    else [t[0]] + StripFrom(t[1..], false)
  }

  /** `replace(/-{2,}|^-|-$/g, "")`. */
  function StripDashes(s: string): string
  {
    StripFrom(s, true)
  }

  /**
   * Reference definition by maximal runs of "-": a run is deleted when it is
   * two or more long, or when it starts or ends the whole string; a lone "-"
   * inside the string is kept. `atStart` says that `s` begins the string.
   */
  function DropRuns(s: string, atStart: bool): string
    decreases |s|
  {
    if s == [] then []
    else if s[0] != '-' then [s[0]] + DropRuns(s[1..], false)
    else
      var n := DashRun(s);
      if n >= 2 || atStart || n == |s| then DropRuns(s[n..], false)
      else "-" + DropRuns(s[1..], false)
  }

  /** The engine's scan and the run-based definition agree. */
  lemma {:induction false} StripFromIsDropRuns(t: string, atStart: bool)
    ensures StripFrom(t, atStart) == DropRuns(t, atStart)
    decreases |t|
  {
    if t != [] {
      var n := DashRun(t);
      if n >= 2 {
        StripFromIsDropRuns(t[n..], false);
      } else {
        StripFromIsDropRuns(t[1..], false);
      }
    }
  }

  lemma StripDashesIsDropRuns(s: string)
    ensures StripDashes(s) == DropRuns(s, true)
  {
    StripFromIsDropRuns(s, true);
  }

  /** Deleting runs keeps only characters of the input. */
  lemma {:induction false} DropRunsKeepsSlugChars(s: string, atStart: bool)
    requires AllSlugChars(s)
    ensures AllSlugChars(DropRuns(s, atStart))
    decreases |s|
  {
    if s != [] {
      var n := DashRun(s);
      assert AllSlugChars(s[1..]) && AllSlugChars(s[n..]) by {
        forall i | 0 <= i < |s[1..]| ensures IsSlugChar(s[1..][i]) {
          assert s[1..][i] == s[i + 1];
        }
        forall i | 0 <= i < |s[n..]| ensures IsSlugChar(s[n..][i]) {
          assert s[n..][i] == s[i + n];
        }
      }
      if s[0] != '-' {
        DropRunsKeepsSlugChars(s[1..], false);
      } else if n >= 2 || atStart || n == |s| {
        DropRunsKeepsSlugChars(s[n..], false);
      } else {
        DropRunsKeepsSlugChars(s[1..], false);
      }
    }
  }

  /** A string that starts with a character other than "-" keeps that character first. */
  lemma DropRunsKeepsFirst(s: string, atStart: bool)
    requires s != [] && s[0] != '-'
    ensures DropRuns(s, atStart) != [] && DropRuns(s, atStart)[0] == s[0]
  {
  }

  /** Putting a character in front of a string without "--" or a trailing "-". */
  lemma PrependKeepsShape(c: char, t: string)
    requires NoDoubleDash(t) && (t != [] ==> t[|t| - 1] != '-')
    requires c == '-' ==> t != [] && t[0] != '-'
    ensures NoDoubleDash([c] + t) && ([c] + t)[|[c] + t| - 1] != '-'
  {
    var r := [c] + t;
    forall i | 0 <= i < |r| - 1
      ensures !(r[i] == '-' && r[i + 1] == '-')
    {
      if i > 0 {
        assert r[i] == t[i - 1] && r[i + 1] == t[i];
      }
    }
  }

  /**
   * After deleting runs there is no "--" and no trailing "-"; a leading "-"
   * survives only where the input itself starts with a lone "-" that does not
   * begin the whole string.
   */
  lemma {:induction false} DropRunsShape(s: string, atStart: bool)
    ensures NoDoubleDash(DropRuns(s, atStart))
    ensures DropRuns(s, atStart) != [] ==> DropRuns(s, atStart)[|DropRuns(s, atStart)| - 1] != '-'
    ensures DropRuns(s, atStart) != [] && DropRuns(s, atStart)[0] == '-' ==> !atStart && s[0] == '-'
    decreases |s|
  {
    if s != [] {
      var n := DashRun(s);
      if s[0] != '-' {
        DropRunsShape(s[1..], false);
        PrependKeepsShape(s[0], DropRuns(s[1..], false));
      } else if n >= 2 || atStart || n == |s| {
        DropRunsShape(s[n..], false);
        if s[n..] != [] {
          DropRunsKeepsFirst(s[n..], false);
        }
      } else {
        DropRunsShape(s[1..], false);
        DropRunsKeepsFirst(s[1..], false);
        PrependKeepsShape('-', DropRuns(s[1..], false));
      }
    }
  }

  /** The final replacement leaves a string with no leading or trailing "-" and no "--". */
  lemma StripDashesIsTidy(s: string)
    ensures Tidy(StripDashes(s))
  {
    StripDashesIsDropRuns(s);
    DropRunsShape(s, true);
  }

  /** A tidy string passes the final replacement unchanged. */
  lemma {:induction false} DropRunsKeepsTidy(s: string, atStart: bool)
    requires NoDoubleDash(s)
    requires s != [] ==> s[|s| - 1] != '-'
    requires atStart && s != [] ==> s[0] != '-'
    ensures DropRuns(s, atStart) == s
    decreases |s|
  {
    if s != [] {
      var t := s[1..];
      assert NoDoubleDash(t) by {
        forall i | 0 <= i < |t| - 1 ensures !(t[i] == '-' && t[i + 1] == '-') {
          assert t[i] == s[i + 1] && t[i + 1] == s[i + 2];
        }
      }
      if s[0] == '-' {
        assert s[1] != '-';
        assert DashRun(s) == 1;
      }
      DropRunsKeepsTidy(t, false);
      assert [s[0]] + t == s;
    }
  }

  /** The dashes `"-" * n`. */
  function Dashes(n: nat): (d: string)
    ensures |d| == n && forall k :: 0 <= k < n ==> d[k] == '-'
  {
    if n == 0 then [] else "-" + Dashes(n - 1)
  }

  lemma {:induction false} DashRunOfPrefix(x: string, y: string)
    requires DashRun(x) < |x|
    ensures DashRun(x + y) == DashRun(x)
  {
    assert (x + y)[0] == x[0];
    if x[0] == '-' {
      assert (x + y)[1..] == x[1..] + y;
      DashRunOfPrefix(x[1..], y);
    }
  }

  lemma {:induction false} DashRunOfDashes(n: nat, b: string)
    requires b == [] || b[0] != '-'
    ensures DashRun(Dashes(n) + b) == n
  {
    if n > 0 {
      assert (Dashes(n) + b)[1..] == Dashes(n - 1) + b;
      DashRunOfDashes(n - 1, b);
    }
  }

  /** A character other than "-" is kept, and what follows no longer starts the string. */
  lemma DropRunsCons(c: char, rest: string, atStart: bool)
    requires c != '-'
    ensures DropRuns([c] + rest, atStart) == [c] + DropRuns(rest, false)
  {
    assert ([c] + rest)[1..] == rest;
  }

  /** A run of "-" that does not reach the end of the string. */
  lemma DropRunsInnerRun(s: string, atStart: bool)
    requires s != [] && s[0] == '-' && DashRun(s) < |s|
    ensures DashRun(s) >= 2 || atStart ==> DropRuns(s, atStart) == DropRuns(s[DashRun(s)..], false)
    ensures DashRun(s) < 2 && !atStart ==> DropRuns(s, atStart) == "-" + DropRuns(s[1..], false)
  {
  }

  /** A run of two or more "-" that starts the text is deleted whatever the flag. */
  lemma LeadingLongRunVanishes(n: nat, b: string, atStart: bool)
    requires n >= 2
    requires b == [] || b[0] != '-'
    ensures DropRuns(Dashes(n) + b, atStart) == DropRuns(b, atStart)
  {
    var s := Dashes(n) + b;
    DashRunOfDashes(n, b);
    assert s[n..] == b;
    assert DropRuns(s, atStart) == DropRuns(b, false);
    if b != [] {
      assert b == [b[0]] + b[1..];
      DropRunsCons(b[0], b[1..], atStart);
      DropRunsCons(b[0], b[1..], false);
    }
  }

  /**
   * A run of two or more "-" between two characters other than "-" is deleted
   * outright, not collapsed to one "-".
   */
  lemma {:induction false} LongRunVanishes(a: string, n: nat, b: string, atStart: bool)
    requires n >= 2
    requires a == [] || a[|a| - 1] != '-'
    requires b == [] || b[0] != '-'
    ensures DropRuns(a + (Dashes(n) + b), atStart) == DropRuns(a + b, atStart)
    decreases |a|
  {
    if a == [] {
      assert a + (Dashes(n) + b) == Dashes(n) + b;
      assert a + b == b;
      LeadingLongRunVanishes(n, b, atStart);
    } else {
      var k := LongRunStep(a, Dashes(n) + b, atStart);
      var k' := LongRunStep(a, b, atStart);
      var rest := a[k..];
      assert rest != [] ==> rest[|rest| - 1] == a[|a| - 1];
      LongRunVanishes(rest, n, b, false);
    }
  }

  /**
   * One step of `DropRuns` on `a + rest`, where `a` does not end with "-": it
   * consumes the first `k` characters of `a`, emitting `e`, the same for every `rest`.
   */
  lemma LongRunStep(a: string, rest: string, atStart: bool) returns (k: nat)
    requires a != [] && a[|a| - 1] != '-'
    ensures 0 < k <= |a|
    ensures k == (if a[0] != '-' then 1 else if DashRun(a) >= 2 || atStart then DashRun(a) else 1)
    ensures DropRuns(a + rest, atStart) == StepOutput(a, atStart) + DropRuns(a[k..] + rest, false)
  {
    var s := a + rest;
    if a[0] != '-' {
      k := 1;
      assert s == [a[0]] + (a[1..] + rest);
      DropRunsCons(a[0], a[1..] + rest, atStart);
    } else {
      var m := DashRun(a);
      assert m < |a|;
      DashRunOfPrefix(a, rest);
      DropRunsInnerRun(s, atStart);
      k := if m >= 2 || atStart then m else 1;
      assert s[k..] == a[k..] + rest;
    }
  }

  /** What that step emits: the first character, a kept lone "-", or nothing. */
  function StepOutput(a: string, atStart: bool): string
    requires a != []
  {
    if a[0] != '-' then [a[0]] else if DashRun(a) >= 2 || atStart then [] else "-"
  }

  /** A lone "-" that does not end the string is kept. */
  lemma LoneDashKept(b: string)
    requires b != [] && b[0] != '-'
    ensures DropRuns("-" + b, false) == "-" + DropRuns(b, false)
  {
    var t := "-" + b;
    DashRunOfDashes(1, b);
    assert Dashes(1) + b == t;
    DropRunsInnerRun(t, false);
    assert t[1..] == b;
  }

  /** `DropRuns` takes `a` one step at a time, whatever follows it. */
  lemma DropRunsAlone(a: string, atStart: bool) returns (k: nat)
    requires a != [] && a[|a| - 1] != '-'
    ensures 0 < k <= |a|
    ensures k == (if a[0] != '-' then 1 else if DashRun(a) >= 2 || atStart then DashRun(a) else 1)
    ensures DropRuns(a, atStart) == StepOutput(a, atStart) + DropRuns(a[k..], false)
  {
    k := LongRunStep(a, [], atStart);
    assert a + [] == a && a[k..] + [] == a[k..];
  }

  /** The last step of `LoneDashStays`: `a` is consumed in one step. */
  lemma LoneDashAfterLastStep(a: string, b: string, atStart: bool, e: string)
    requires b != [] && b[0] != '-'
    requires DropRuns(a + ("-" + b), atStart) == e + DropRuns("-" + b, false)
    requires DropRuns(a, atStart) == e + DropRuns([], false)
    ensures DropRuns(a + ("-" + b), atStart) == DropRuns(a, atStart) + ("-" + DropRuns(b, false))
  {
    LoneDashKept(b);
    assert DropRuns(a, atStart) == e;
  }

  /** Output emitted in front of both sides of an equation stays in front. */
  lemma EmitInFront(whole: string, part: string, e: string, wholeRest: string, partRest: string, tail: string)
    requires whole == e + wholeRest && part == e + partRest
    requires wholeRest == partRest + tail
    ensures whole == part + tail
  {
    assert e + (partRest + tail) == (e + partRest) + tail;
  }

  /** A lone "-" between two characters other than "-" is kept. */
  lemma {:induction false} LoneDashStays(a: string, b: string, atStart: bool)
    requires a != [] && a[|a| - 1] != '-'
    requires b != [] && b[0] != '-'
    ensures DropRuns(a + ("-" + b), atStart) == DropRuns(a, atStart) + ("-" + DropRuns(b, false))
    decreases |a|
  {
    var k := LongRunStep(a, "-" + b, atStart);
    var k' := DropRunsAlone(a, atStart);
    var rest := a[k..];
    if rest == [] {
      assert rest + ("-" + b) == "-" + b;
      LoneDashAfterLastStep(a, b, atStart, StepOutput(a, atStart));
    } else {
      assert rest[|rest| - 1] == a[|a| - 1];
      LoneDashStays(rest, b, false);
      EmitInFront(DropRuns(a + ("-" + b), atStart), DropRuns(a, atStart), StepOutput(a, atStart),
                  DropRuns(rest + ("-" + b), false), DropRuns(rest, false), "-" + DropRuns(b, false));
    }
  }

  // ---------------------------------------------------------------------------
  // slugize
  // ---------------------------------------------------------------------------

  /** `slugize(str)`. */
  function Slugize(str: string): string
  {
    StripDashes(Separate(ToLowerCase(Transliterate(Head(str))), false))
  }

  /** Every slug is made of `a-z`, `0-9`, `-`, `_`, and neither starts nor ends with "-" nor holds "--". */
  lemma SlugizeIsSlug(str: string)
    ensures IsSlug(Slugize(str))
  {
    var lowered := ToLowerCase(Transliterate(Head(str)));
    var separated := Separate(lowered, false);
    ToLowerCaseHasNoUpper(Transliterate(Head(str)));
    SeparateGivesSlugChars(lowered, false);
    StripDashesIsDropRuns(separated);
    DropRunsKeepsSlugChars(separated, true);
    StripDashesIsTidy(separated);
  }

  /** Everything from the first " (" on is ignored. */
  lemma SlugizeIgnoresParenthetical(a: string, b: string)
    requires !CanBeSlugized(a)
    ensures Slugize(a + " (" + b) == Slugize(a)
  {
    HeadOfOpen(a, b);
    assert Head(a) == a by {
      CanBeSlugizedIffHeadCuts(a);
    }
  }

  /** A slug contains no " (", no character above `~` and no upper-case letter. */
  lemma {:induction false} SlugPassesEarlySteps(s: string)
    requires AllSlugChars(s)
    ensures Head(s) == s
    ensures Transliterate(s) == s
    ensures ToLowerCase(s) == s
  {
    if OpensAt(s, FirstOpen(s)) {
      assert IsSlugChar(s[FirstOpen(s)]);
    }
    if s != [] {
      SlugPassesEarlySteps(s[1..]) by {
        forall i | 0 <= i < |s[1..]| ensures IsSlugChar(s[1..][i]) {
          assert s[1..][i] == s[i + 1];
        }
      }
      assert LowerChar(s[0]) == [s[0]];
      assert [s[0]] + s[1..] == s;
    }
  }

  /** Slugizing a slug changes nothing. */
  lemma SlugizeFixesSlugs(s: string)
    requires IsSlug(s)
    ensures Slugize(s) == s
  {
    SlugPassesEarlySteps(s);
    SeparateKeepsSlugChars(s, false);
    StripDashesIsDropRuns(s);
    DropRunsKeepsTidy(s, true);
  }

  /** `slugize` is idempotent. */
  lemma SlugizeIdempotent(str: string)
    ensures Slugize(Slugize(str)) == Slugize(str)
  {
    SlugizeIsSlug(str);
    SlugizeFixesSlugs(Slugize(str));
  }
}
