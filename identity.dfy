/**
 * Identity resolution: which existing profile a submitted rating or profile
 * belongs to, decided from the canonical key, the employee id and the
 * canonical name.
 */
module Identity {
  import opened Wrappers
  import opened Canonical
  import opened Records

  /** The profiles whose canonical key is `key`, in table order. */
  function KeyMatches(ps: seq<Profile>, key: string): (r: seq<Profile>)
    ensures forall p :: p in r ==> p in ps && p.canonicalKey == key
    ensures forall p :: p in ps && p.canonicalKey == key ==> p in r
  {
    if ps == [] then []
    else (if ps[0].canonicalKey == key then [ps[0]] else []) + KeyMatches(ps[1..], key)
  }

  /** The profiles whose canonical name is `name`, in table order. */
  function NameMatches(ps: seq<Profile>, name: string): (r: seq<Profile>)
    ensures forall p :: p in r ==> p in ps && p.canonicalName == name
    ensures forall p :: p in ps && p.canonicalName == name ==> p in r
  {
    if ps == [] then []
    else (if ps[0].canonicalName == name then [ps[0]] else []) + NameMatches(ps[1..], name)
  }

  /**
   * `find_profile_by_rating_identity`: the profile with the canonical key;
   * failing that, and only when no employee id was given, the single profile
   * with the same canonical name.
   */
  function FindProfileByRatingIdentity(ps: seq<Profile>, workerName: string, key: string, employeeId: Option<string>): (r: Option<Profile>)
    ensures r.Some? ==> r.value in ps
    ensures KeyMatches(ps, key) != [] ==> r == Some(KeyMatches(ps, key)[0])
    ensures KeyMatches(ps, key) == [] && employeeId.Some? ==> r == None
    ensures KeyMatches(ps, key) == [] && employeeId.None? ==>
      (r.Some? <==> |NameMatches(ps, NormalizeWorkerName(workerName))| == 1)
  {
    var byKey := KeyMatches(ps, key);
    if byKey != [] then
      assert byKey[0] in byKey;
      Some(byKey[0])
    else if employeeId.Some? then None
    else
      var byName := NameMatches(ps, NormalizeWorkerName(workerName));
      if |byName| == 1 then
        assert byName[0] in byName;
        Some(byName[0])
      else None
  }

  /** With unique canonical keys, at most one profile matches a key. */
  lemma {:induction false} KeyMatchesUnique(ps: seq<Profile>, key: string)
    requires UniqueIdentities(ps)
    ensures |KeyMatches(ps, key)| <= 1
  {
    if ps != [] {
      var tail := ps[1..];
      ProfileTailUnique(ps);
      KeyMatchesUnique(tail, key);
      if ps[0].canonicalKey == key {
        forall k | 0 <= k < |tail| ensures tail[k].canonicalKey != key {
          assert tail[k] == ps[k + 1];
          assert IdentitiesDiffer(ps[0], ps[k + 1]);
        }
        NoKeyNoMatches(tail, key);
      }
    }
  }

  lemma {:induction false} NoKeyNoMatches(ps: seq<Profile>, key: string)
    requires forall k :: 0 <= k < |ps| ==> ps[k].canonicalKey != key
    ensures KeyMatches(ps, key) == []
  {
    if ps != [] {
      NoKeyNoMatches(ps[1..], key);
    }
  }

  /**
   * The decision rules of the resolver, stated on the profiles themselves:
   * a profile holding the key is the answer; otherwise an employee id means
   * no match; otherwise the answer is the profile with that canonical name
   * when it is the only one, and no match when there are none or several.
   */
  lemma ResolverRules(ps: seq<Profile>, workerName: string, key: string, employeeId: Option<string>)
    requires UniqueIdentities(ps)
    ensures var r := FindProfileByRatingIdentity(ps, workerName, key, employeeId);
      var name := NormalizeWorkerName(workerName);
      (forall p :: p in ps && p.canonicalKey == key ==> r == Some(p)) &&
      ((forall p :: p in ps ==> p.canonicalKey != key) && employeeId.Some? ==> r == None) &&
      ((forall p :: p in ps ==> p.canonicalKey != key) && employeeId.None? ==>
        (forall p :: p in ps && p.canonicalName == name && NameMatches(ps, name) == [p] ==> r == Some(p)) &&
        (|NameMatches(ps, name)| != 1 ==> r == None))
  {
    KeyMatchesUnique(ps, key);
    var byKey := KeyMatches(ps, key);
    forall p | p in ps && p.canonicalKey == key
      ensures FindProfileByRatingIdentity(ps, workerName, key, employeeId) == Some(p)
    {
      assert p in byKey;
    }
  }

  /** When an employee id is given, only a profile holding the requested key can be returned. */
  lemma NoNameFallbackWithEmployeeId(ps: seq<Profile>, workerName: string, key: string, employeeId: Option<string>)
    requires employeeId.Some?
    ensures var r := FindProfileByRatingIdentity(ps, workerName, key, employeeId);
      r.Some? ==> r.value.canonicalKey == key
  {
    var byKey := KeyMatches(ps, key);
    if byKey != [] {
      assert byKey[0] in byKey;
    }
  }

  lemma SingletonMember(s: seq<Profile>, x: Profile)
    requires |s| == 1 && x in s
    ensures x == s[0]
  {
  }

  /** A profile found by name carries that canonical name, no profile holds the key, and it is the only profile with that name. */
  lemma NameMatchIsOnlyCandidate(ps: seq<Profile>, workerName: string, key: string)
    ensures var r := FindProfileByRatingIdentity(ps, workerName, key, None);
      r.Some? && r.value.canonicalKey != key ==>
        r.value.canonicalName == NormalizeWorkerName(workerName) &&
        (forall p :: p in ps ==> p.canonicalKey != key) &&
        (forall p :: p in ps && p.canonicalName == r.value.canonicalName ==> p == r.value)
  {
    var r := FindProfileByRatingIdentity(ps, workerName, key, None);
    var byKey := KeyMatches(ps, key);
    var name := NormalizeWorkerName(workerName);
    var byName := NameMatches(ps, name);
    if r.Some? && r.value.canonicalKey != key {
      assert |byName| == 1 && r.value == byName[0];
      assert byName[0] in byName;
      forall p | p in ps && p.canonicalName == r.value.canonicalName ensures p == r.value {
        SingletonMember(byName, p);
      }
    }
  }
}
