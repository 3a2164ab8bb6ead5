/**
 * Canonicalisation of worker identities: the display name and the external
 * employee id are reduced to a normal form, and the two together give the
 * canonical worker key that the profile table keeps unique.
 *
 * Whitespace is a fixed set of ASCII characters and lower-casing is ASCII
 * lower-casing.
 */
module Canonical {
  import opened Wrappers

  /** The ASCII characters Python counts as whitespace: space, tab, line feed, carriage return,
   *  vertical tab, form feed and the four separators U+001C to U+001F. */
  predicate IsSpace(c: char) {
    c == ' ' || c == '\t' || c == '\n' || c == '\r' || c == '\U{000B}' || c == '\U{000C}' ||
    ('\U{001C}' <= c <= '\U{001F}')
  }

  predicate IsUpper(c: char) {
    'A' <= c <= 'Z'
  }

  function LowerChar(c: char): (r: char)
    ensures !IsUpper(r)
    ensures IsSpace(r) <==> IsSpace(c)
    ensures c == ' ' ==> r == ' '
    ensures !IsUpper(c) ==> r == c
  {
    if IsUpper(c) then (c as int + 32) as char else c
  }

  /** ASCII lower-casing of a whole string, character by character. */
  function Lower(s: string): (r: string)
    ensures |r| == |s|
  {
    if s == [] then [] else [LowerChar(s[0])] + Lower(s[1..])
  }

  lemma {:induction false} LowerAt(s: string, i: nat)
    requires i < |s|
    ensures Lower(s)[i] == LowerChar(s[i])
  {
    if i > 0 {
      LowerAt(s[1..], i - 1);
    }
  }

  /** Drops leading whitespace. */
  function TrimStart(s: string): (r: string)
    ensures |r| <= |s|
    ensures r == [] || !IsSpace(r[0])
    ensures forall i :: 0 <= i < |s| - |r| ==> IsSpace(s[i])
  {
    if s != [] && IsSpace(s[0]) then TrimStart(s[1..]) else s
  }

  /** Drops trailing whitespace. */
  function TrimEnd(s: string): (r: string)
    ensures |r| <= |s|
    ensures r == [] || !IsSpace(r[|r| - 1])
    ensures forall i :: |r| <= i < |s| ==> IsSpace(s[i])
  {
    if s != [] && IsSpace(s[|s| - 1]) then TrimEnd(s[..|s| - 1]) else s
  }

  /** Python's `str.strip()` over the whitespace set. */
  function Strip(s: string): string {
    TrimEnd(TrimStart(s))
  }

  /** Replaces every maximal run of whitespace by one space. */
  function Collapse(s: string): string
    decreases |s|
  {
    if s == [] then []
    else if IsSpace(s[0]) then [' '] + Collapse(TrimStart(s[1..]))
    else [s[0]] + Collapse(s[1..])
  }

  /** Removes every whitespace character. */
  function RemoveSpaces(s: string): string {
    if s == [] then []
    else if IsSpace(s[0]) then RemoveSpaces(s[1..])
    else [s[0]] + RemoveSpaces(s[1..])
  }

  /** normalize_worker_name: trim, collapse whitespace runs to one space, lower-case. */
  function NormalizeWorkerName(name: string): string {
    Lower(Collapse(Strip(name)))
  }

  /**
   * normalize_employee_id: a missing or blank id gives None; otherwise the
   * trimmed id with all whitespace removed, lower-cased.
   */
  function NormalizeEmployeeId(employeeId: Option<string>): Option<string> {
    var cleaned := Strip(employeeId.GetOr(""));
    if cleaned == [] then None else Some(Lower(RemoveSpaces(cleaned)))
  }

  const KeySeparator: string := "::"

  /** canonical_worker_key: the normalised name, or `name::id` when a normalised id is present. */
  function CanonicalWorkerKey(name: string, employeeId: Option<string>): string {
    JoinKey(NormalizeWorkerName(name), NormalizeEmployeeId(employeeId))
  }

  /** The key built from an already normalised name and id. */
  function JoinKey(normalizedName: string, normalizedId: Option<string>): string {
    match normalizedId
    case Some(id) => normalizedName + KeySeparator + id
    case None => normalizedName
  }

  // ---------------------------------------------------------------------------
  // What a normalised value looks like

  predicate NoEdgeSpace(s: string) {
    s == [] || (!IsSpace(s[0]) && !IsSpace(s[|s| - 1]))
  }

  /** Every whitespace character is a plain space and is never followed by more whitespace. */
  predicate SingleSpaced(s: string) {
    forall i :: 0 <= i < |s| && IsSpace(s[i]) ==> s[i] == ' ' && (i + 1 < |s| ==> !IsSpace(s[i + 1]))
  }

  predicate NoUpper(s: string) {
    forall i :: 0 <= i < |s| ==> !IsUpper(s[i])
  }

  predicate NoSpace(s: string) {
    forall i :: 0 <= i < |s| ==> !IsSpace(s[i])
  }

  predicate IsNormalName(s: string) {
    NoEdgeSpace(s) && SingleSpaced(s) && NoUpper(s)
  }

  predicate IsNormalEmployeeId(s: string) {
    s != [] && NoSpace(s) && NoUpper(s)
  }

  predicate IsBlank(s: string) {
    forall i :: 0 <= i < |s| ==> IsSpace(s[i])
  }

  // ---------------------------------------------------------------------------
  // Lemmas about the helpers

  lemma {:induction false} StripShape(s: string)
    ensures NoEdgeSpace(Strip(s))
    ensures Strip(s) == [] <==> IsBlank(s)
  {
    TrimStartIsSuffix(s);
    TrimEndIsPrefix(TrimStart(s));
  }

  /** What `TrimStart` keeps is a suffix of its input. */
  lemma {:induction false} TrimStartIsSuffix(s: string)
    ensures TrimStart(s) == s[|s| - |TrimStart(s)|..]
  {
    if s != [] && IsSpace(s[0]) {
      TrimStartIsSuffix(s[1..]);
    }
  }

  /** What `TrimEnd` keeps is a prefix of its input. */
  lemma {:induction false} TrimEndIsPrefix(s: string)
    ensures TrimEnd(s) == s[..|TrimEnd(s)|]
  {
    if s != [] && IsSpace(s[|s| - 1]) {
      TrimEndIsPrefix(s[..|s| - 1]);
    }
  }

  lemma {:induction false} TrimStartOfNonSpace(s: string)
    requires s == [] || !IsSpace(s[0])
    ensures TrimStart(s) == s
  {
  }

  lemma {:induction false} TrimEndOfNonSpace(s: string)
    requires s == [] || !IsSpace(s[|s| - 1])
    ensures TrimEnd(s) == s
  {
  }

  lemma {:induction false} CollapseFirst(s: string)
    requires s != []
    ensures Collapse(s) != []
    ensures Collapse(s)[0] == if IsSpace(s[0]) then ' ' else s[0]
  {
  }

  lemma {:induction false} CollapseLast(s: string)
    requires s != [] && !IsSpace(s[|s| - 1])
    ensures Collapse(s) != [] && Collapse(s)[|Collapse(s)| - 1] == s[|s| - 1]
    decreases |s|
  {
    var u := s[1..];
    if IsSpace(s[0]) {
      var t := TrimStart(u);
      TrimStartIsSuffix(u);
      assert u[|u| - 1] == s[|s| - 1];
      assert |t| > 0;
      assert t[|t| - 1] == u[|u| - 1];
      CollapseLast(t);
      assert Collapse(s) == [' '] + Collapse(t);
    } else if |s| > 1 {
      CollapseLast(u);
      assert Collapse(s) == [s[0]] + Collapse(u);
    } else {
      assert Collapse(s) == [s[0]];
    }
  }

  lemma {:induction false} CollapseSingleSpaced(s: string)
    ensures SingleSpaced(Collapse(s))
    decreases |s|
  {
    if s == [] {
    } else if IsSpace(s[0]) {
      var t := TrimStart(s[1..]);
      CollapseSingleSpaced(t);
      var c := Collapse(t);
      if t != [] {
        CollapseFirst(t);
      }
      assert Collapse(s) == [' '] + c;
      forall i | 0 <= i < |[' '] + c| && IsSpace(([' '] + c)[i])
        ensures ([' '] + c)[i] == ' ' && (i + 1 < |[' '] + c| ==> !IsSpace(([' '] + c)[i + 1]))
      {
        if i > 0 {
          assert ([' '] + c)[i] == c[i - 1];
        }
      }
    } else {
      CollapseSingleSpaced(s[1..]);
      var c := Collapse(s[1..]);
      assert Collapse(s) == [s[0]] + c;
      forall i | 0 <= i < |[s[0]] + c| && IsSpace(([s[0]] + c)[i])
        ensures ([s[0]] + c)[i] == ' ' && (i + 1 < |[s[0]] + c| ==> !IsSpace(([s[0]] + c)[i + 1]))
      {
        assert i > 0;
        assert ([s[0]] + c)[i] == c[i - 1];
      }
    }
  }

  lemma {:induction false} CollapseOfSingleSpaced(s: string)
    requires SingleSpaced(s)
    ensures Collapse(s) == s
    decreases |s|
  {
    if s != [] {
      assert SingleSpaced(s[1..]) by {
        forall i | 0 <= i < |s[1..]| && IsSpace(s[1..][i])
          ensures s[1..][i] == ' ' && (i + 1 < |s[1..]| ==> !IsSpace(s[1..][i + 1]))
        {
          assert s[1..][i] == s[i + 1];
        }
      }
      if IsSpace(s[0]) {
        TrimStartOfNonSpace(s[1..]);
      }
      CollapseOfSingleSpaced(s[1..]);
    }
  }

  lemma {:induction false} LowerKeepsShape(s: string)
    ensures NoUpper(Lower(s))
    ensures NoEdgeSpace(s) ==> NoEdgeSpace(Lower(s))
    ensures SingleSpaced(s) ==> SingleSpaced(Lower(s))
    ensures NoSpace(s) ==> NoSpace(Lower(s))
    ensures Lower(s) == [] <==> s == []
  {
    forall i | 0 <= i < |s| ensures Lower(s)[i] == LowerChar(s[i]) {
      LowerAt(s, i);
    }
  }

  lemma {:induction false} LowerOfNoUpper(s: string)
    requires NoUpper(s)
    ensures Lower(s) == s
  {
    if s != [] {
      LowerOfNoUpper(s[1..]);
    }
  }

  lemma {:induction false} RemoveSpacesShape(s: string)
    ensures NoSpace(RemoveSpaces(s))
    ensures s != [] && !IsSpace(s[0]) ==> RemoveSpaces(s) != []
    ensures NoSpace(s) ==> RemoveSpaces(s) == s
    ensures NoUpper(s) ==> NoUpper(RemoveSpaces(s))
  {
    if s != [] {
      RemoveSpacesShape(s[1..]);
    }
  }

  // ---------------------------------------------------------------------------
  // Properties of normalize_worker_name, normalize_employee_id, canonical_worker_key

  /** A normalised name has no edge whitespace, only single plain spaces inside, and no upper case. */
  lemma {:induction false} NormalizedNameIsNormal(name: string)
    ensures IsNormalName(NormalizeWorkerName(name))
  {
    var t := Strip(name);
    StripShape(name);
    var c := Collapse(t);
    CollapseSingleSpaced(t);
    if t != [] {
      CollapseFirst(t);
      CollapseLast(t);
    }
    LowerKeepsShape(c);
  }

  /** Names already in normal form are left alone. */
  lemma {:induction false} NormalNameIsFixpoint(s: string)
    requires IsNormalName(s)
    ensures NormalizeWorkerName(s) == s
  {
    TrimStartOfNonSpace(s);
    TrimEndOfNonSpace(s);
    CollapseOfSingleSpaced(s);
    LowerOfNoUpper(s);
  }

  /** Normalising a name twice is the same as normalising it once. */
  lemma {:induction false} NormalizeWorkerNameIdempotent(name: string)
    ensures NormalizeWorkerName(NormalizeWorkerName(name)) == NormalizeWorkerName(name)
  {
    NormalizedNameIsNormal(name);
    NormalNameIsFixpoint(NormalizeWorkerName(name));
  }

  /**
   * normalize_employee_id gives None exactly for a missing or blank id, and
   * otherwise a non-empty, whitespace-free, lower-case string.
   */
  lemma {:induction false} NormalizeEmployeeIdShape(employeeId: Option<string>)
    ensures NormalizeEmployeeId(employeeId).None? <==> IsBlank(employeeId.GetOr(""))
    ensures NormalizeEmployeeId(employeeId).Some? ==> IsNormalEmployeeId(NormalizeEmployeeId(employeeId).value)
  {
    var raw := employeeId.GetOr("");
    var cleaned := Strip(raw);
    StripShape(raw);
    if cleaned == [] {
      assert NormalizeEmployeeId(employeeId) == None;
    } else {
      var t := RemoveSpaces(cleaned);
      RemoveSpacesShape(cleaned);
      LowerKeepsShape(t);
      assert NormalizeEmployeeId(employeeId) == Some(Lower(t));
    }
  }

  /** An id already in normal form is returned unchanged. */
  lemma {:induction false} NormalEmployeeIdIsFixpoint(id: string)
    requires IsNormalEmployeeId(id)
    ensures NormalizeEmployeeId(Some(id)) == Some(id)
  {
    TrimStartOfNonSpace(id);
    TrimEndOfNonSpace(id);
    RemoveSpacesShape(id);
    LowerOfNoUpper(id);
  }

  /** Normalising an employee id twice is the same as normalising it once. */
  lemma {:induction false} NormalizeEmployeeIdIdempotent(employeeId: Option<string>)
    ensures NormalizeEmployeeId(NormalizeEmployeeId(employeeId)) == NormalizeEmployeeId(employeeId)
  {
    NormalizeEmployeeIdShape(employeeId);
    if NormalizeEmployeeId(employeeId).Some? {
      NormalEmployeeIdIsFixpoint(NormalizeEmployeeId(employeeId).value);
    }
  }

  /**
   * The canonical key is the normalised name when there is no normalised id,
   * and `name::id` otherwise; it does not change when either input is
   * replaced by its normalised form.
   */
  lemma {:induction false} CanonicalKeyOfNormalized(name: string, employeeId: Option<string>)
    ensures NormalizeEmployeeId(employeeId).None? ==> CanonicalWorkerKey(name, employeeId) == NormalizeWorkerName(name)
    ensures NormalizeEmployeeId(employeeId).Some? ==>
      CanonicalWorkerKey(name, employeeId) == NormalizeWorkerName(name) + "::" + NormalizeEmployeeId(employeeId).value
    ensures CanonicalWorkerKey(NormalizeWorkerName(name), NormalizeEmployeeId(employeeId)) == CanonicalWorkerKey(name, employeeId)
  {
    NormalizeWorkerNameIdempotent(name);
    NormalizeEmployeeIdIdempotent(employeeId);
  }

  /**
   * As long as neither normalised name contains a colon, equal keys come only
   * from equal normalised names and equal normalised ids.
   */
  lemma {:induction false} JoinKeyInjective(n1: string, e1: Option<string>, n2: string, e2: Option<string>)
    requires ':' !in n1 && ':' !in n2
    requires JoinKey(n1, e1) == JoinKey(n2, e2)
    ensures n1 == n2 && e1 == e2
  {
    if e1.Some? && e2.Some? {
      var v1, v2 := e1.value, e2.value;
      assert JoinKey(n1, e1) == (n1 + KeySeparator) + v1 == n1 + (KeySeparator + v1);
      assert JoinKey(n2, e2) == (n2 + KeySeparator) + v2 == n2 + (KeySeparator + v2);
      SplitBeforeColon(n1, KeySeparator + e1.value, n2, KeySeparator + e2.value);
      assert e1.value == (KeySeparator + e1.value)[2..];
    }
  }

  lemma {:induction false} ColonAt(a: string, s: string, x: string, k: nat)
    requires ':' !in a && k < |a| && a + x == s
    ensures s[k] != ':'
  {
    assert s[k] == a[k];
  }

  /** Splitting a string at its first colon: the parts before it must agree. */
  lemma {:induction false} SplitBeforeColon(a: string, x: string, b: string, y: string)
    requires ':' !in a && ':' !in b
    requires x == [] || x[0] == ':'
    requires y == [] || y[0] == ':'
    requires a + x == b + y
    ensures a == b && x == y
  {
    var s := a + x;
    if |a| < |b| {
      ColonAt(b, s, y, |a|);
    } else if |b| < |a| {
      ColonAt(a, s, x, |b|);
    }
    assert a == s[..|a|] == b;
    assert x == s[|a|..] == y;
  }

  /**
   * The colon condition above cannot be dropped: for every normalised name and
   * id, the name `name::id` without an id has the same key as `name` with the
   * id, although the two normalised names differ.
   */
  lemma {:induction false} CanonicalKeyCollision(name: string, id: string)
    requires IsNormalName(name) && IsNormalEmployeeId(id)
    ensures CanonicalWorkerKey(name + KeySeparator + id, None) == CanonicalWorkerKey(name, Some(id))
    ensures NormalizeWorkerName(name + KeySeparator + id) != NormalizeWorkerName(name)
  {
    var long := name + KeySeparator + id;
    assert IsNormalName(long) by {
      forall i | 0 <= i < |long| && IsSpace(long[i])
        ensures long[i] == ' ' && (i + 1 < |long| ==> !IsSpace(long[i + 1]))
      {
        assert i < |name|;
      }
    }
    NormalNameIsFixpoint(long);
    NormalNameIsFixpoint(name);
    NormalEmployeeIdIsFixpoint(id);
    assert NormalizeEmployeeId(None) == None by {
      assert Strip("") == "";
    }
  }

  lemma {:induction false} StripOfLower(s: string)
    ensures TrimStart(Lower(s)) == Lower(TrimStart(s))
    ensures TrimEnd(Lower(s)) == Lower(TrimEnd(s))
    ensures Strip(Lower(s)) == Lower(Strip(s))
  {
    LowerTrimStart(s);
    LowerTrimEnd(s);
    LowerTrimEnd(TrimStart(s));
  }

  lemma {:induction false} LowerTrimStart(s: string)
    ensures TrimStart(Lower(s)) == Lower(TrimStart(s))
  {
    if s != [] {
      assert Lower(s) == [LowerChar(s[0])] + Lower(s[1..]);
      assert Lower(s)[1..] == Lower(s[1..]);
      LowerTrimStart(s[1..]);
    }
  }

  lemma {:induction false} LowerPrefix(s: string, k: nat)
    requires k <= |s|
    ensures Lower(s)[..k] == Lower(s[..k])
  {
    if k > 0 {
      assert Lower(s)[1..] == Lower(s[1..]);
      LowerPrefix(s[1..], k - 1);
      assert s[..k][1..] == s[1..][..k - 1];
    }
  }

  lemma {:induction false} LowerTrimEnd(s: string)
    ensures TrimEnd(Lower(s)) == Lower(TrimEnd(s))
    decreases |s|
  {
    if s != [] {
      var n := |s| - 1;
      LowerAt(s, n);
      LowerPrefix(s, n);
      LowerTrimEnd(s[..n]);
    }
  }

  lemma {:induction false} CollapseOfLower(s: string)
    ensures Collapse(Lower(s)) == Lower(Collapse(s))
    decreases |s|
  {
    if s != [] {
      assert Lower(s) == [LowerChar(s[0])] + Lower(s[1..]);
      assert Lower(s)[1..] == Lower(s[1..]);
      if IsSpace(s[0]) {
        LowerTrimStart(s[1..]);
        CollapseOfLower(TrimStart(s[1..]));
        assert Lower([' '] + Collapse(TrimStart(s[1..]))) == [' '] + Lower(Collapse(TrimStart(s[1..])));
      } else {
        CollapseOfLower(s[1..]);
        assert Lower([s[0]] + Collapse(s[1..])) == [LowerChar(s[0])] + Lower(Collapse(s[1..]));
      }
    }
  }

  lemma {:induction false} LowerIdempotent(s: string)
    ensures Lower(Lower(s)) == Lower(s)
  {
    LowerKeepsShape(s);
    LowerOfNoUpper(Lower(s));
  }

  /**
   * Names that differ only in letter case normalise alike: normalisation
   * factors through lower-casing.
   */
  lemma {:induction false} NormalizeWorkerNameIgnoresCase(a: string, b: string)
    requires Lower(a) == Lower(b)
    ensures NormalizeWorkerName(a) == NormalizeWorkerName(b)
  {
    NormalizeThroughLower(a);
    NormalizeThroughLower(b);
  }

  lemma {:induction false} NormalizeThroughLower(s: string)
    ensures NormalizeWorkerName(s) == Collapse(Strip(Lower(s)))
  {
    StripOfLower(s);
    CollapseOfLower(Strip(s));
  }
}
