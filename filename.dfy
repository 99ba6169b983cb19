/** The name under which a response body is saved: the request URL with every
    maximal run of characters outside [A-Za-z0-9] replaced by one '-'
    (the regular expression "[^A-Za-z0-9]+" replaced by "-"). */
module Filename {

  predicate IsAlnum(c: char) {
    'A' <= c <= 'Z' || 'a' <= c <= 'z' || '0' <= c <= '9'
  }

  /** What a sanitised name looks like: ASCII letters, digits and '-' only,
      and never two '-' side by side. */
  predicate IsClean(s: string) {
    && (forall i :: 0 <= i < |s| ==> IsAlnum(s[i]) || s[i] == '-')
    && (forall i :: 0 < i < |s| ==> s[i - 1] != '-' || s[i] != '-')
  }

  /** Removes the maximal leading run of characters outside [A-Za-z0-9]:
      what the regular expression consumes in one match. */
  function DropSpecialRun(s: string): (r: string)
    ensures |r| <= |s| && r == s[|s| - |r|..]
    ensures forall i :: 0 <= i < |s| - |r| ==> !IsAlnum(s[i])
    ensures r == [] || IsAlnum(r[0])
    ensures s != [] && !IsAlnum(s[0]) ==> |r| < |s|
  {
    if s == [] || IsAlnum(s[0]) then s else DropSpecialRun(s[1..])
  }

  /** The replacement itself: a letter or digit is kept, a run of other
      characters becomes a single '-'. */
  function Sanitize(s: string): (r: string)
    ensures IsClean(r)
    ensures |r| <= |s|
    ensures r == [] <==> s == []
    ensures s != [] && IsAlnum(s[0]) ==> r[0] == s[0]
    ensures s != [] && !IsAlnum(s[0]) ==> r[0] == '-'
    decreases |s|
  {
    if s == [] then []
    else if IsAlnum(s[0]) then [s[0]] + Sanitize(s[1..])
    else "-" + Sanitize(DropSpecialRun(s))
  }

  /** The same replacement read one character at a time: `inRun` says that
      the previous character was outside [A-Za-z0-9], so its run has already
      produced its '-'. */
  function Scan(s: string, inRun: bool): string {
    if s == [] then []
    else if IsAlnum(s[0]) then [s[0]] + Scan(s[1..], false)
    else (if inRun then [] else "-") + Scan(s[1..], true)
  }

  lemma {:induction false} ScanSkipsRun(s: string)
    ensures Scan(s, true) == Scan(DropSpecialRun(s), false)
  {
    if s != [] && !IsAlnum(s[0]) {
      ScanSkipsRun(s[1..]);
    }
  }

  /** The run-at-a-time definition and the character-at-a-time one agree on
      every input. */
  lemma {:induction false} SanitizeIsScan(s: string)
    ensures Sanitize(s) == Scan(s, false)
    decreases |s|
  {
    if s == [] {
    } else if IsAlnum(s[0]) {
      SanitizeIsScan(s[1..]);
    } else {
      ScanSkipsRun(s[1..]);
      SanitizeIsScan(DropSpecialRun(s));
    }
  }

  /** The letters and digits of `s`, in order. */
  function AlnumOnly(s: string): string {
    if s == [] then []
    else (if IsAlnum(s[0]) then [s[0]] else []) + AlnumOnly(s[1..])
  }

  /** `s` with every '-' deleted. */
  function WithoutDashes(s: string): string {
    if s == [] then []
    else (if s[0] == '-' then [] else [s[0]]) + WithoutDashes(s[1..])
  }

  lemma {:induction false} AlnumOnlySkipsRun(s: string)
    ensures AlnumOnly(DropSpecialRun(s)) == AlnumOnly(s)
  {
    if s != [] && !IsAlnum(s[0]) {
      AlnumOnlySkipsRun(s[1..]);
    }
  }

  /** Sanitising keeps every letter and digit of the URL, in order, and adds
      nothing but '-'. */
  lemma {:induction false} SanitizeKeepsAlnum(s: string)
    ensures WithoutDashes(Sanitize(s)) == AlnumOnly(s)
    decreases |s|
  {
    if s == [] {
    } else if IsAlnum(s[0]) {
      assert s[0] != '-';
      SanitizeKeepsAlnum(s[1..]);
    } else {
      AlnumOnlySkipsRun(s);
      SanitizeKeepsAlnum(DropSpecialRun(s));
    }
  }

  /** The number of '-' characters in `s`. */
  function Dashes(s: string): nat {
    if s == [] then 0 else (if s[0] == '-' then 1 else 0) + Dashes(s[1..])
  }

  /** The number of maximal runs of characters outside [A-Za-z0-9] in `s`;
      `inRun` says that a run is already open before `s`. */
  function SpecialRuns(s: string, inRun: bool): nat {
    if s == [] then 0
    else if IsAlnum(s[0]) then SpecialRuns(s[1..], false)
    else (if inRun then 0 else 1) + SpecialRuns(s[1..], true)
  }

  lemma {:induction false} DashesOfScan(s: string, inRun: bool)
    ensures Dashes(Scan(s, inRun)) == SpecialRuns(s, inRun)
  {
    if s != [] {
      DashesOfScan(s[1..], !IsAlnum(s[0]));
      if IsAlnum(s[0]) {
        assert s[0] != '-';
      } else if inRun {
        assert Scan(s, inRun) == Scan(s[1..], true);
      } else {
        var rest := Scan(s[1..], true);
        assert Scan(s, inRun) == "-" + rest;
        assert ("-" + rest)[1..] == rest;
      }
    }
  }

  /** Each maximal run of other characters becomes exactly one '-'. */
  lemma OneDashPerRun(s: string)
    ensures Dashes(Sanitize(s)) == SpecialRuns(s, false)
  {
    SanitizeIsScan(s);
    DashesOfScan(s, false);
  }

  lemma {:induction false} SanitizeFixesClean(s: string)
    requires IsClean(s)
    ensures Sanitize(s) == s
  {
    if s != [] {
      assert IsClean(s[1..]) by {
        assert forall i :: 0 <= i < |s| - 1 ==> s[1..][i] == s[i + 1];
      }
      SanitizeFixesClean(s[1..]);
      if !IsAlnum(s[0]) {
        assert s[0] == '-';
        assert |s| > 1 ==> IsAlnum(s[1]);
        assert DropSpecialRun(s) == s[1..];
      }
    }
  }

  /** A string is left unchanged by sanitising exactly when it is already a
      sanitised name. */
  lemma {:induction false} SanitizeFixpoint(s: string)
    ensures Sanitize(s) == s <==> IsClean(s)
  {
    if IsClean(s) {
      SanitizeFixesClean(s);
    }
  }

  /** Sanitising twice is sanitising once. */
  lemma {:induction false} SanitizeIdempotent(s: string)
    ensures Sanitize(Sanitize(s)) == Sanitize(s)
  {
    SanitizeFixesClean(Sanitize(s));
  }
}
