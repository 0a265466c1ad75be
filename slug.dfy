/**
  `slugify`: lower-case the text, turn each run of whitespace into one `-`,
  delete every character that is neither a word character nor `-`, collapse
  runs of `-`, and trim `-` from both ends. Both copies of the plugin define
  it with the same five `replace` steps; each step is a function here.
 */
module Slug {
  import opened Ascii

  /** The characters a slug may hold: lower-case word characters and `-`. */
  predicate IsSlugChar(c: char) { IsLower(c) || IsDigit(c) || c == '_' || c == '-' }

  predicate SlugChars(s: string) { forall i :: 0 <= i < |s| ==> IsSlugChar(s[i]) }

  predicate NoUpper(s: string) { forall i :: 0 <= i < |s| ==> !IsUpper(s[i]) }

  predicate NoDoubleDash(s: string) {
    forall i :: 0 <= i < |s| - 1 ==> s[i] != '-' || s[i + 1] != '-'
  }

  /** What `Slugify` produces, and exactly what it leaves unchanged. */
  predicate IsSlug(s: string) {
    SlugChars(s) && NoDoubleDash(s)
    && (|s| > 0 ==> s[0] != '-' && s[|s| - 1] != '-')
  }

  /** The rest of `s` after its leading whitespace. */
  function DropSpaces(s: string): string {
    if s != [] && IsSpace(s[0]) then DropSpaces(s[1..]) else s
  }

  /** `.replace(/\s+/g, '-')` */
  function DashSpaces(s: string): string
    decreases |s|
  {
    DropSpacesShape(s);
    if s == [] then []
    else if IsSpace(s[0]) then "-" + DashSpaces(DropSpaces(s[1..]))
    else [s[0]] + DashSpaces(s[1..])
  }

  /** `.replace(/[^\w\-]+/g, '')` */
  function KeepWord(s: string): string {
    if s == [] then []
    else (if IsWord(s[0]) || s[0] == '-' then [s[0]] else []) + KeepWord(s[1..])
  }

  /** `.replace(/^-+/, '')`: the rest of `s` after its leading dashes. */
  function DropDashes(s: string): string {
    if s != [] && s[0] == '-' then DropDashes(s[1..]) else s
  }

  /** `.replace(/\-\-+/g, '-')`: every run of dashes becomes one dash. */
  function CollapseDashes(s: string): string
    decreases |s|
  {
    if s == [] then []
    else if s[0] == '-' then
      DropDashesShape(s[1..]);
      "-" + CollapseDashes(DropDashes(s[1..]))
    else [s[0]] + CollapseDashes(s[1..])
  }

  /** `.replace(/-+$/, '')`: `s` without its trailing dashes. */
  function TrimEnd(s: string): string {
    if s != [] && s[|s| - 1] == '-' then TrimEnd(s[..|s| - 1]) else s
  }

  /** Dropping leading whitespace leaves a suffix that starts with something else. */
  lemma {:induction false} DropSpacesShape(s: string)
    ensures var r := DropSpaces(s); |r| <= |s| && r == s[|s| - |r|..]
    ensures var r := DropSpaces(s); r == [] || !IsSpace(r[0])
  {
    if s != [] && IsSpace(s[0]) {
      DropSpacesShape(s[1..]);
    }
  }

  /** Turning whitespace into dashes adds no upper-case letter. */
  lemma {:induction false} DashSpacesNoUpper(s: string)
    requires NoUpper(s)
    ensures NoUpper(DashSpaces(s))
    decreases |s|
  {
    if s == [] {
    } else if IsSpace(s[0]) {
      var d := DropSpaces(s[1..]);
      DropSpacesShape(s[1..]);
      assert forall i :: 0 <= i < |d| ==> d[i] == s[1..][|s[1..]| - |d| + i];
      DashSpacesNoUpper(d);
    } else {
      DashSpacesNoUpper(s[1..]);
    }
  }

  /** Text without whitespace is left as it is. */
  lemma {:induction false} DashSpacesFixed(s: string)
    requires forall i :: 0 <= i < |s| ==> !IsSpace(s[i])
    ensures DashSpaces(s) == s
    decreases |s|
  {
    if s != [] {
      DashSpacesFixed(s[1..]);
      assert s == [s[0]] + s[1..];
    }
  }

  /** Only word characters and dashes are kept. */
  lemma {:induction false} KeepWordChars(s: string)
    ensures forall i :: 0 <= i < |KeepWord(s)| ==> IsWord(KeepWord(s)[i]) || KeepWord(s)[i] == '-'
  {
    if s != [] {
      KeepWordChars(s[1..]);
      var head := if IsWord(s[0]) || s[0] == '-' then [s[0]] else [];
      var rest := KeepWord(s[1..]);
      assert KeepWord(s) == head + rest;
      assert forall i :: |head| <= i < |head + rest| ==> (head + rest)[i] == rest[i - |head|];
    }
  }

  /** Without upper-case letters, what is kept is in the slug alphabet. */
  lemma {:induction false} KeepWordSlugChars(s: string)
    requires NoUpper(s)
    ensures SlugChars(KeepWord(s))
  {
    if s != [] {
      KeepWordSlugChars(s[1..]);
    }
  }

  /** Text made only of word characters and dashes is kept whole. */
  lemma {:induction false} KeepWordFixed(s: string)
    requires forall i :: 0 <= i < |s| ==> IsWord(s[i]) || s[i] == '-'
    ensures KeepWord(s) == s
  {
    if s != [] {
      KeepWordFixed(s[1..]);
      assert s == [s[0]] + s[1..];
    }
  }

  /** Dropping leading dashes leaves a suffix that starts with something else. */
  lemma {:induction false} DropDashesShape(s: string)
    ensures var r := DropDashes(s); |r| <= |s| && r == s[|s| - |r|..]
    ensures var r := DropDashes(s); r == [] || r[0] != '-'
  {
    if s != [] && s[0] == '-' {
      DropDashesShape(s[1..]);
    }
  }

  /** Collapsing leaves no two dashes in a row and keeps the first character. */
  lemma {:induction false} CollapseDashesShape(s: string)
    ensures NoDoubleDash(CollapseDashes(s))
    ensures |s| > 0 ==> |CollapseDashes(s)| > 0 && CollapseDashes(s)[0] == s[0]
    decreases |s|
  {
    var r := CollapseDashes(s);
    if s == [] {
    } else if s[0] == '-' {
      var rest := DropDashes(s[1..]);
      DropDashesShape(s[1..]);
      CollapseDashesShape(rest);
      assert r == "-" + CollapseDashes(rest);
    } else {
      CollapseDashesShape(s[1..]);
      assert r == [s[0]] + CollapseDashes(s[1..]);
    }
  }

  /** Collapsing keeps the slug alphabet. */
  lemma {:induction false} CollapseDashesSlugChars(s: string)
    requires SlugChars(s)
    ensures SlugChars(CollapseDashes(s))
    decreases |s|
  {
    if s == [] {
    } else if s[0] == '-' {
      var rest := DropDashes(s[1..]);
      DropDashesShape(s[1..]);
      assert forall i :: 0 <= i < |rest| ==> rest[i] == s[1..][|s[1..]| - |rest| + i];
      CollapseDashesSlugChars(rest);
    } else {
      CollapseDashesSlugChars(s[1..]);
    }
  }

  /** Text without a double dash is left as it is. */
  lemma {:induction false} CollapseDashesFixed(s: string)
    requires NoDoubleDash(s)
    ensures CollapseDashes(s) == s
    decreases |s|
  {
    if s == [] {
    } else {
      assert NoDoubleDash(s[1..]) by {
        forall i | 0 <= i < |s[1..]| - 1 ensures s[1..][i] != '-' || s[1..][i + 1] != '-' {
          assert s[1..][i] == s[i + 1] && s[1..][i + 1] == s[i + 2];
        }
      }
      if s[0] == '-' {
        assert DropDashes(s[1..]) == s[1..];
      }
      CollapseDashesFixed(s[1..]);
      assert s == [s[0]] + s[1..];
    }
  }

  /** Trimming trailing dashes leaves a prefix that ends with something else. */
  lemma {:induction false} TrimEndShape(s: string)
    ensures var r := TrimEnd(s); |r| <= |s| && r == s[..|r|]
    ensures var r := TrimEnd(s); r == [] || r[|r| - 1] != '-'
  {
    if s != [] && s[|s| - 1] == '-' {
      TrimEndShape(s[..|s| - 1]);
    }
  }

  /**
    A prefix `u` of a suffix `t` of a text `s` without double dashes: `u`
    keeps the alphabet and has no double dash, and when `t` starts with
    something other than a dash, so does a non-empty `u`.
   */
  lemma SuffixPrefixInside(s: string, t: string, u: string)
    requires SlugChars(s) && NoDoubleDash(s)
    requires |t| <= |s| && t == s[|s| - |t|..]
    requires |u| <= |t| && u == t[..|u|]
    ensures SlugChars(u) && NoDoubleDash(u)
    ensures |u| > 0 ==> u[0] == t[0]
  {
    var k := |s| - |t|;
    assert forall i :: 0 <= i < |u| ==> u[i] == s[k + i];
    forall i | 0 <= i < |u| - 1 ensures u[i] != '-' || u[i + 1] != '-' {
      assert u[i] == s[k + i] && u[i + 1] == s[k + i + 1];
    }
  }

  lemma PipelineIsSlug(text: string)
    ensures IsSlug(TrimEnd(DropDashes(CollapseDashes(KeepWord(DashSpaces(Lower(text)))))))
  {
    var lowered := Lower(text);
    var dashed := DashSpaces(lowered);
    var kept := KeepWord(dashed);
    var collapsed := CollapseDashes(kept);
    var trimmed := DropDashes(collapsed);
    var r := TrimEnd(trimmed);
    assert SlugChars(collapsed) by {
      assert NoUpper(lowered);
      DashSpacesNoUpper(lowered);
      KeepWordSlugChars(dashed);
      CollapseDashesSlugChars(kept);
    }
    CollapseDashesShape(kept);
    DropDashesShape(collapsed);
    TrimEndShape(trimmed);
    SuffixPrefixInside(collapsed, trimmed, r);
  }

  function Slugify(text: string): (r: string)
    ensures IsSlug(r)
  {
    PipelineIsSlug(text);
    TrimEnd(DropDashes(CollapseDashes(KeepWord(DashSpaces(Lower(text))))))
  }

  /** Slugify leaves a slug exactly as it is. */
  lemma SlugFixpoint(s: string)
    requires IsSlug(s)
    ensures Slugify(s) == s
  {
    forall i | 0 <= i < |s| ensures Lower(s)[i] == s[i] { assert IsSlugChar(s[i]); }
    assert Lower(s) == s;
    DashSpacesFixed(s);
    KeepWordFixed(s);
    CollapseDashesFixed(s);
  }

  lemma SlugIdempotent(text: string)
    ensures Slugify(Slugify(text)) == Slugify(text)
  {
    SlugFixpoint(Slugify(text));
  }
}
