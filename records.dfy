/**
 * The rows of the four tables (profiles, ratings, history entries, profile
 * notes) and the set-at-a-time table updates the server issues as SQL:
 * selecting a worker's rows, deleting them, deleting one entry and
 * re-pointing rows from one worker to another.
 */
module Records {
  import opened Wrappers

  /** A row of a child table: its own id, the id of the owning profile, and its columns. */
  datatype Row<T> = Row(id: nat, workerId: nat, data: T)

  /** The columns of `worker_ratings`. */
  datatype RatingData = RatingData(category: string, score: int, reviewer: string, note: string, ratedAt: int)

  /** The columns of `worker_profile_history`. */
  datatype HistoryData = HistoryData(category: string, score: int, note: Option<string>, createdAt: int)

  /** The columns of `worker_profile_notes`. */
  datatype NoteData = NoteData(note: string, createdAt: int)

  type Rating = Row<RatingData>
  type HistoryEntry = Row<HistoryData>
  type ProfileNote = Row<NoteData>

  /** A row of `worker_profiles`; columns the schema allows to be NULL are options. */
  datatype Profile = Profile(
    id: nat,
    name: string,
    jobCategory: Option<string>,
    score: Option<int>,
    reviewer: Option<string>,
    notes: Option<string>,
    ratedAt: Option<int>,
    createdAt: int,
    updatedAt: int,
    status: Option<string>,
    background: Option<string>,
    employeeId: Option<string>,
    canonicalName: string,
    canonicalKey: string)

  // ---------------------------------------------------------------------------
  // Child tables

  /** A `WHERE` condition on a child row. */
  datatype Cond = WorkerIs(w: nat) | WorkerIsNot(w: nat) | NotEntry(w: nat, entryId: nat)

  predicate Holds<T>(c: Cond, r: Row<T>) {
    match c
    case WorkerIs(w) => r.workerId == w
    case WorkerIsNot(w) => r.workerId != w
    case NotEntry(w, id) => !(r.id == id && r.workerId == w)
  }

  /** The rows satisfying `c`, in table order. */
  function Where<T>(rows: seq<Row<T>>, c: Cond): seq<Row<T>> {
    if rows == [] then []
    else if Holds(c, rows[0]) then [rows[0]] + Where(rows[1..], c)
    else Where(rows[1..], c)
  }

  /** `UPDATE … SET worker_id = to WHERE worker_id = from`. */
  function Reparent<T>(rows: seq<Row<T>>, from: nat, to: nat): seq<Row<T>> {
    if rows == [] then []
    else [if rows[0].workerId == from then rows[0].(workerId := to) else rows[0]] + Reparent(rows[1..], from, to)
  }

  /** Row ids strictly increase along the table, as AUTOINCREMENT ids do. */
  predicate IdsIncreasing<T>(rows: seq<Row<T>>) {
    forall i, j :: 0 <= i < j < |rows| ==> rows[i].id < rows[j].id
  }

  predicate IdsBelow<T>(rows: seq<Row<T>>, next: nat) {
    forall i :: 0 <= i < |rows| ==> rows[i].id < next
  }

  /** Every row belongs to one of the given profile ids (the foreign key). */
  predicate OwnersIn<T>(rows: seq<Row<T>>, owners: set<nat>) {
    forall i :: 0 <= i < |rows| ==> rows[i].workerId in owners
  }

  /** Whether the table holds the entry `id` of worker `w`. */
  predicate HasEntry<T>(rows: seq<Row<T>>, w: nat, id: nat) {
    exists i :: 0 <= i < |rows| && rows[i].id == id && rows[i].workerId == w
  }

  lemma {:induction false} WhereMembers<T>(rows: seq<Row<T>>, c: Cond)
    ensures forall x :: x in Where(rows, c) ==> x in rows && Holds(c, x)
    ensures forall x :: x in rows && Holds(c, x) ==> x in Where(rows, c)
    ensures |Where(rows, c)| <= |rows|
  {
    if rows != [] {
      WhereMembers(rows[1..], c);
      assert rows == [rows[0]] + rows[1..];
    }
  }

  lemma {:induction false} WhereAppend<T>(a: seq<Row<T>>, b: seq<Row<T>>, c: Cond)
    ensures Where(a + b, c) == Where(a, c) + Where(b, c)
  {
    if a == [] {
      assert a + b == b;
    } else {
      assert (a + b)[1..] == a[1..] + b;
      WhereAppend(a[1..], b, c);
    }
  }

  /** Filtering keeps the order of the ids. */
  lemma {:induction false} WhereIncreasing<T>(rows: seq<Row<T>>, c: Cond)
    requires IdsIncreasing(rows)
    ensures IdsIncreasing(Where(rows, c))
  {
    if rows != [] {
      assert IdsIncreasing(rows[1..]) by {
        forall i, j | 0 <= i < j < |rows[1..]| ensures rows[1..][i].id < rows[1..][j].id {
          assert rows[1..][i] == rows[i + 1] && rows[1..][j] == rows[j + 1];
        }
      }
      WhereIncreasing(rows[1..], c);
      WhereMembers(rows[1..], c);
      var rest := Where(rows[1..], c);
      if Holds(c, rows[0]) {
        var r := [rows[0]] + rest;
        forall i, j | 0 <= i < j < |r| ensures r[i].id < r[j].id {
          if i == 0 {
            assert r[j] == rest[j - 1] && rest[j - 1] in rest;
            assert r[j] in rows[1..];
            var k :| 0 <= k < |rows[1..]| && rows[1..][k] == r[j];
            assert rows[k + 1] == r[j];
          } else {
            assert r[i] == rest[i - 1] && r[j] == rest[j - 1];
          }
        }
      }
    }
  }

  lemma {:induction false} WhereBelow<T>(rows: seq<Row<T>>, c: Cond, next: nat)
    requires IdsBelow(rows, next)
    ensures IdsBelow(Where(rows, c), next)
  {
    WhereMembers(rows, c);
    var r := Where(rows, c);
    forall i | 0 <= i < |r| ensures r[i].id < next {
      assert r[i] in r;
      assert r[i] in rows;
    }
  }

  lemma {:induction false} WhereOwners<T>(rows: seq<Row<T>>, c: Cond, owners: set<nat>)
    requires OwnersIn(rows, owners)
    ensures OwnersIn(Where(rows, c), owners)
  {
    WhereMembers(rows, c);
    var r := Where(rows, c);
    forall i | 0 <= i < |r| ensures r[i].workerId in owners {
      assert r[i] in r;
      assert r[i] in rows;
    }
  }

  /** A table without worker `w`'s rows has none of them left and the same rows of every other worker. */
  lemma {:induction false} WhereWithoutWorker<T>(rows: seq<Row<T>>, w: nat, v: nat)
    ensures Where(Where(rows, WorkerIsNot(w)), WorkerIs(v)) == if v == w then [] else Where(rows, WorkerIs(v))
  {
    if rows != [] {
      WhereWithoutWorker(rows[1..], w, v);
    }
  }

  /** Removing one entry leaves every other worker's rows as they were. */
  lemma {:induction false} WhereWithoutEntry<T>(rows: seq<Row<T>>, w: nat, id: nat, v: nat)
    requires v != w
    ensures Where(Where(rows, NotEntry(w, id)), WorkerIs(v)) == Where(rows, WorkerIs(v))
  {
    if rows != [] {
      WhereWithoutEntry(rows[1..], w, id, v);
    }
  }

  lemma {:induction false} TailIncreasing<T>(rows: seq<Row<T>>)
    requires rows != [] && IdsIncreasing(rows)
    ensures IdsIncreasing(rows[1..])
    ensures forall k :: 0 <= k < |rows[1..]| ==> rows[0].id < rows[1..][k].id
  {
    var tail := rows[1..];
    forall i, j | 0 <= i < j < |tail| ensures tail[i].id < tail[j].id {
      assert tail[i] == rows[i + 1] && tail[j] == rows[j + 1];
    }
    forall k | 0 <= k < |tail| ensures rows[0].id < tail[k].id {
      assert tail[k] == rows[k + 1];
    }
  }

  /** Deleting an entry that is not there changes nothing. */
  lemma {:induction false} WhereWithoutMissingEntry<T>(rows: seq<Row<T>>, w: nat, id: nat)
    requires !HasEntry(rows, w, id)
    ensures Where(rows, NotEntry(w, id)) == rows
  {
    if rows != [] {
      var tail := rows[1..];
      assert !HasEntry(tail, w, id) by {
        forall k | 0 <= k < |tail| ensures !(tail[k].id == id && tail[k].workerId == w) {
          assert tail[k] == rows[k + 1];
        }
      }
      WhereWithoutMissingEntry(tail, w, id);
      assert rows == [rows[0]] + tail;
    }
  }

  /** Deleting an entry that is there removes exactly one row, since ids are unique. */
  lemma {:induction false} WhereWithoutPresentEntry<T>(rows: seq<Row<T>>, w: nat, id: nat)
    requires IdsIncreasing(rows) && HasEntry(rows, w, id)
    ensures |Where(rows, NotEntry(w, id))| == |rows| - 1
  {
    var tail := rows[1..];
    TailIncreasing(rows);
    if rows[0].id == id && rows[0].workerId == w {
      assert !HasEntry(tail, w, id);
      WhereWithoutMissingEntry(tail, w, id);
    } else {
      var i :| 0 <= i < |rows| && rows[i].id == id && rows[i].workerId == w;
      assert tail[i - 1] == rows[i];
      WhereWithoutPresentEntry(tail, w, id);
    }
  }

  lemma {:induction false} ReparentShape<T>(rows: seq<Row<T>>, from: nat, to: nat)
    ensures |Reparent(rows, from, to)| == |rows|
    ensures forall i :: 0 <= i < |rows| ==>
      Reparent(rows, from, to)[i] == if rows[i].workerId == from then rows[i].(workerId := to) else rows[i]
  {
    if rows != [] {
      ReparentShape(rows[1..], from, to);
    }
  }

  /**
   * After re-pointing `from`'s rows to `to`, `from` owns nothing, `to` owns
   * as many rows as both owned before, and every other worker is untouched.
   */
  lemma {:induction false} ReparentOwnership<T>(rows: seq<Row<T>>, from: nat, to: nat, v: nat)
    requires from != to
    ensures Where(Reparent(rows, from, to), WorkerIs(from)) == []
    ensures |Where(Reparent(rows, from, to), WorkerIs(to))| ==
            |Where(rows, WorkerIs(from))| + |Where(rows, WorkerIs(to))|
    ensures v != from && v != to ==> Where(Reparent(rows, from, to), WorkerIs(v)) == Where(rows, WorkerIs(v))
  {
    if rows != [] {
      ReparentOwnership(rows[1..], from, to, v);
    }
  }

  /** Each of `from`'s rows is now `to`'s, with its id and columns unchanged. */
  lemma {:induction false} ReparentMoves<T>(rows: seq<Row<T>>, from: nat, to: nat)
    ensures forall x :: x in Where(rows, WorkerIs(from)) ==> x.(workerId := to) in Reparent(rows, from, to)
    ensures forall x :: x in Where(rows, WorkerIs(to)) ==> x in Reparent(rows, from, to)
  {
    WhereMembers(rows, WorkerIs(from));
    WhereMembers(rows, WorkerIs(to));
    ReparentShape(rows, from, to);
    forall x | x in Where(rows, WorkerIs(from)) ensures x.(workerId := to) in Reparent(rows, from, to) {
      assert x in rows;
      var i :| 0 <= i < |rows| && rows[i] == x;
      assert Reparent(rows, from, to)[i] == x.(workerId := to);
    }
    forall x | x in Where(rows, WorkerIs(to)) ensures x in Reparent(rows, from, to) {
      assert x in rows;
      var i :| 0 <= i < |rows| && rows[i] == x;
      assert Reparent(rows, from, to)[i] == x;
    }
  }

  lemma {:induction false} ReparentKeepsIds<T>(rows: seq<Row<T>>, from: nat, to: nat, next: nat, owners: set<nat>)
    requires to in owners
    ensures IdsIncreasing(rows) ==> IdsIncreasing(Reparent(rows, from, to))
    ensures IdsBelow(rows, next) ==> IdsBelow(Reparent(rows, from, to), next)
    ensures OwnersIn(rows, owners) ==> OwnersIn(Reparent(rows, from, to), owners)
  {
    ReparentShape(rows, from, to);
  }

  lemma {:induction false} AppendKeepsIds<T>(rows: seq<Row<T>>, x: Row<T>, next: nat, owners: set<nat>)
    requires IdsIncreasing(rows) && IdsBelow(rows, next) && OwnersIn(rows, owners)
    requires x.id == next && x.workerId in owners
    ensures IdsIncreasing(rows + [x]) && IdsBelow(rows + [x], next + 1) && OwnersIn(rows + [x], owners)
  {
  }

  /** An appended row owned by `w` joins `w`'s rows at the end; other workers' rows are unchanged. */
  lemma {:induction false} WhereAppendOne<T>(rows: seq<Row<T>>, x: Row<T>, v: nat)
    ensures Where(rows + [x], WorkerIs(v)) == Where(rows, WorkerIs(v)) + (if x.workerId == v then [x] else [])
  {
    WhereAppend(rows, [x], WorkerIs(v));
  }

  lemma {:induction false} OwnersWeaken<T>(rows: seq<Row<T>>, owners: set<nat>, more: set<nat>)
    requires OwnersIn(rows, owners) && owners <= more
    ensures OwnersIn(rows, more)
  {
  }

  /** Rows that are not `w`'s have their owner among the other profiles. */
  lemma {:induction false} OwnersWithout<T>(rows: seq<Row<T>>, owners: set<nat>, w: nat)
    requires OwnersIn(rows, owners)
    ensures OwnersIn(Where(rows, WorkerIsNot(w)), owners - {w})
  {
    WhereMembers(rows, WorkerIsNot(w));
    var r := Where(rows, WorkerIsNot(w));
    forall i | 0 <= i < |r| ensures r[i].workerId in owners - {w} {
      assert r[i] in r;
      assert r[i] in rows;
    }
  }

  /**
   * Well-formedness of a child table: ids increase along the table, lie below
   * the next AUTOINCREMENT id, and every row belongs to an existing profile.
   */
  predicate TableValid<T>(rows: seq<Row<T>>, next: nat, owners: set<nat>) {
    IdsIncreasing(rows) && IdsBelow(rows, next) && OwnersIn(rows, owners)
  }

  /** Rows numbered `first`, `first + 1`, … for worker `w`, as consecutive inserts create them. */
  function NewRows<T>(first: nat, w: nat, data: seq<T>): seq<Row<T>> {
    seq(|data|, i requires 0 <= i < |data| => Row(first + i, w, data[i]))
  }

  lemma NewRowsSnoc<T>(first: nat, w: nat, data: seq<T>, x: T)
    ensures NewRows(first, w, data + [x]) == NewRows(first, w, data) + [Row(first + |data|, w, x)]
  {
  }

  /** Fresh rows of worker `w` are `w`'s rows and nobody else's. */
  lemma {:induction false} WhereNewRows<T>(first: nat, w: nat, data: seq<T>, v: nat)
    ensures Where(NewRows(first, w, data), WorkerIs(v)) == if v == w then NewRows(first, w, data) else []
    decreases |data|
  {
    if data != [] {
      var rows := NewRows(first, w, data);
      assert rows[1..] == NewRows(first + 1, w, data[1..]);
      WhereNewRows(first + 1, w, data[1..], v);
    }
  }

  /**
   * Deleting worker `w`'s rows and inserting fresh ones for `w`: `w` then owns
   * exactly the fresh rows, in order, and every other worker's rows are as before.
   */
  lemma ReplaceRowsOwnership<T>(rows: seq<Row<T>>, w: nat, first: nat, data: seq<T>, v: nat)
    ensures Where(Where(rows, WorkerIsNot(w)) + NewRows(first, w, data), WorkerIs(v)) ==
      if v == w then NewRows(first, w, data) else Where(rows, WorkerIs(v))
  {
    WhereAppend(Where(rows, WorkerIsNot(w)), NewRows(first, w, data), WorkerIs(v));
    WhereWithoutWorker(rows, w, v);
    WhereNewRows(first, w, data, v);
  }

  /** Re-pointing `from`'s rows to another existing profile leaves no row owned by `from`. */
  lemma ReparentOwnersWithout<T>(rows: seq<Row<T>>, from: nat, to: nat, owners: set<nat>)
    requires OwnersIn(rows, owners) && to in owners && to != from
    ensures OwnersIn(Reparent(rows, from, to), owners - {from})
  {
    ReparentShape(rows, from, to);
  }

  // ---------------------------------------------------------------------------
  // The profile table

  /** The ids present in the profile table. */
  function ProfileIds(ps: seq<Profile>): set<nat> {
    set i | 0 <= i < |ps| :: ps[i].id
  }

  predicate ProfileIdsIncreasing(ps: seq<Profile>) {
    forall i, j :: 0 <= i < j < |ps| ==> ps[i].id < ps[j].id
  }

  predicate ProfileIdsBelow(ps: seq<Profile>, next: nat) {
    forall i :: 0 <= i < |ps| ==> 0 < ps[i].id < next
  }

  /**
   * The uniqueness constraints of `worker_profiles`: `name` is UNIQUE, and so
   * are `canonical_worker_key` and a non-null `external_employee_id`.
   */
  predicate UniqueIdentities(ps: seq<Profile>) {
    forall i, j :: 0 <= i < |ps| && 0 <= j < |ps| && i != j ==> IdentitiesDiffer(ps[i], ps[j])
  }

  /** `p` shares no unique column value with `q`. */
  predicate IdentitiesDiffer(p: Profile, q: Profile) {
    p.name != q.name && p.canonicalKey != q.canonicalKey && (p.employeeId.Some? ==> p.employeeId != q.employeeId)
  }

  /** Whether writing a row with these identity columns for profile `id` clashes with another profile. */
  predicate Clashes(ps: seq<Profile>, id: nat, name: string, key: string, employeeId: Option<string>) {
    exists i :: 0 <= i < |ps| && ps[i].id != id &&
      (ps[i].name == name || ps[i].canonicalKey == key || (employeeId.Some? && ps[i].employeeId == employeeId))
  }

  /** `SELECT * FROM worker_profiles WHERE id = ?`. */
  function FindProfile(ps: seq<Profile>, id: nat): (r: Option<Profile>)
    ensures r.Some? <==> id in ProfileIds(ps)
    ensures r.Some? ==> r.value in ps && r.value.id == id
  {
    if ps == [] then None
    else if ps[0].id == id then Some(ps[0])
    else FindProfile(ps[1..], id)
  }

  /** `DELETE FROM worker_profiles WHERE id = ?`. */
  function RemoveProfile(ps: seq<Profile>, id: nat): seq<Profile> {
    if ps == [] then []
    else if ps[0].id == id then RemoveProfile(ps[1..], id)
    else [ps[0]] + RemoveProfile(ps[1..], id)
  }

  /** Deleting profile `id` keeps exactly the other rows. */
  lemma {:induction false} RemoveProfileMembers(ps: seq<Profile>, id: nat)
    ensures forall p :: p in RemoveProfile(ps, id) ==> p in ps && p.id != id
    ensures forall p :: p in ps && p.id != id ==> p in RemoveProfile(ps, id)
    ensures |RemoveProfile(ps, id)| <= |ps|
  {
    if ps != [] {
      RemoveProfileMembers(ps[1..], id);
      assert ps == [ps[0]] + ps[1..];
    }
  }

  /** `UPDATE worker_profiles SET updated_at = now WHERE id = ?`. */
  function TouchProfile(ps: seq<Profile>, id: nat, now: int): seq<Profile> {
    if ps == [] then []
    else [if ps[0].id == id then ps[0].(updatedAt := now) else ps[0]] + TouchProfile(ps[1..], id, now)
  }

  /** Touching a profile changes only its `updated_at`, in place. */
  lemma {:induction false} TouchProfileAt(ps: seq<Profile>, id: nat, now: int)
    ensures |TouchProfile(ps, id, now)| == |ps|
    ensures forall i :: 0 <= i < |ps| ==>
      TouchProfile(ps, id, now)[i] == if ps[i].id == id then ps[i].(updatedAt := now) else ps[i]
  {
    if ps != [] {
      TouchProfileAt(ps[1..], id, now);
      var r := TouchProfile(ps, id, now);
      forall i | 0 < i < |ps| ensures r[i] == if ps[i].id == id then ps[i].(updatedAt := now) else ps[i] {
        assert r[i] == TouchProfile(ps[1..], id, now)[i - 1];
        assert ps[i] == ps[1..][i - 1];
      }
    }
  }

  /** `UPDATE worker_profiles SET … WHERE id = p.id`: the row with `p`'s id becomes `p`. */
  function ReplaceProfile(ps: seq<Profile>, p: Profile): seq<Profile> {
    if ps == [] then []
    else [if ps[0].id == p.id then p else ps[0]] + ReplaceProfile(ps[1..], p)
  }

  /** Every row with `p`'s id becomes `p`, in place; the others stay. */
  lemma {:induction false} ReplaceProfileAt(ps: seq<Profile>, p: Profile)
    ensures |ReplaceProfile(ps, p)| == |ps|
    ensures forall i :: 0 <= i < |ps| ==> ReplaceProfile(ps, p)[i] == if ps[i].id == p.id then p else ps[i]
  {
    if ps != [] {
      ReplaceProfileAt(ps[1..], p);
      var r := ReplaceProfile(ps, p);
      forall i | 0 < i < |ps| ensures r[i] == if ps[i].id == p.id then p else ps[i] {
        assert r[i] == ReplaceProfile(ps[1..], p)[i - 1];
        assert ps[i] == ps[1..][i - 1];
      }
    }
  }

  lemma {:induction false} ProfileTailIncreasing(ps: seq<Profile>)
    requires ps != [] && ProfileIdsIncreasing(ps)
    ensures ProfileIdsIncreasing(ps[1..])
    ensures forall k :: 0 <= k < |ps[1..]| ==> ps[0].id < ps[1..][k].id
  {
    var tail := ps[1..];
    forall i, j | 0 <= i < j < |tail| ensures tail[i].id < tail[j].id {
      assert tail[i] == ps[i + 1] && tail[j] == ps[j + 1];
    }
    forall k | 0 <= k < |tail| ensures ps[0].id < tail[k].id {
      assert tail[k] == ps[k + 1];
    }
  }

  lemma {:induction false} ProfileTailUnique(ps: seq<Profile>)
    requires ps != [] && UniqueIdentities(ps)
    ensures UniqueIdentities(ps[1..])
  {
    var tail := ps[1..];
    forall i, j | 0 <= i < |tail| && 0 <= j < |tail| && i != j ensures IdentitiesDiffer(tail[i], tail[j]) {
      assert tail[i] == ps[i + 1] && tail[j] == ps[j + 1];
    }
  }

  lemma {:induction false} RemoveProfileIncreasing(ps: seq<Profile>, id: nat)
    requires ProfileIdsIncreasing(ps)
    ensures ProfileIdsIncreasing(RemoveProfile(ps, id))
  {
    if ps != [] {
      var tail := ps[1..];
      ProfileTailIncreasing(ps);
      RemoveProfileIncreasing(tail, id);
      if ps[0].id != id {
        RemoveProfileMembers(tail, id);
        assert forall x :: x in tail ==> ps[0].id < x.id;
        ConsIncreasing(ps[0], RemoveProfile(tail, id));
      }
    }
  }

  /** A row placed before rows with larger, increasing ids keeps them increasing. */
  lemma ConsIncreasing(p: Profile, rest: seq<Profile>)
    requires ProfileIdsIncreasing(rest)
    requires forall x :: x in rest ==> p.id < x.id
    ensures ProfileIdsIncreasing([p] + rest)
  {
    var r := [p] + rest;
    forall i, j | 0 <= i < j < |r| ensures r[i].id < r[j].id {
      assert r[j] == rest[j - 1];
      if i == 0 {
        assert rest[j - 1] in rest;
      } else {
        assert r[i] == rest[i - 1];
      }
    }
  }

  lemma {:induction false} RemoveProfileBelow(ps: seq<Profile>, id: nat, next: nat)
    requires ProfileIdsBelow(ps, next)
    ensures ProfileIdsBelow(RemoveProfile(ps, id), next)
  {
    var r := RemoveProfile(ps, id);
    RemoveProfileMembers(ps, id);
    forall i | 0 <= i < |r| ensures 0 < r[i].id < next {
      assert r[i] in r;
      assert r[i] in ps;
    }
  }

  /** Removing a row keeps the remaining identities unique. */
  lemma {:induction false} RemoveProfileUnique(ps: seq<Profile>, id: nat)
    requires UniqueIdentities(ps)
    ensures UniqueIdentities(RemoveProfile(ps, id))
  {
    if ps != [] {
      var tail := ps[1..];
      ProfileTailUnique(ps);
      RemoveProfileUnique(tail, id);
      if ps[0].id != id {
        RemoveProfileMembers(tail, id);
        var rest := RemoveProfile(tail, id);
        var r := [ps[0]] + rest;
        forall m | 0 < m < |r| ensures IdentitiesDiffer(r[0], r[m]) && IdentitiesDiffer(r[m], r[0]) {
          assert r[m] == rest[m - 1] && rest[m - 1] in rest;
          assert r[m] in tail;
          var k :| 0 <= k < |tail| && tail[k] == r[m];
          assert ps[k + 1] == r[m];
        }
        forall i, j | 0 <= i < |r| && 0 <= j < |r| && i != j ensures IdentitiesDiffer(r[i], r[j]) {
          if i != 0 && j != 0 {
            assert r[i] == rest[i - 1] && r[j] == rest[j - 1];
          }
        }
      }
    }
  }

  /** The profile table invariants: increasing positive ids below the next id, and the uniqueness constraints. */
  predicate ProfilesValid(ps: seq<Profile>, next: nat) {
    ProfileIdsIncreasing(ps) && ProfileIdsBelow(ps, next) && UniqueIdentities(ps)
  }

  lemma RemoveProfileIds(ps: seq<Profile>, id: nat)
    ensures ProfileIds(RemoveProfile(ps, id)) == ProfileIds(ps) - {id}
  {
    var r := RemoveProfile(ps, id);
    RemoveProfileMembers(ps, id);
    forall x | x in ProfileIds(ps) - {id} ensures x in ProfileIds(r) {
      var i :| 0 <= i < |ps| && ps[i].id == x;
      assert ps[i] in ps;
      var j :| 0 <= j < |r| && r[j] == ps[i];
    }
    forall x | x in ProfileIds(r) ensures x in ProfileIds(ps) - {id} {
      var j :| 0 <= j < |r| && r[j].id == x;
      assert r[j] in r;
      var i :| 0 <= i < |ps| && ps[i] == r[j];
    }
  }

  /** A profile that clashes with nobody differs in every unique column from every other profile. */
  lemma NoClashDiffers(ps: seq<Profile>, p: Profile, j: nat)
    requires !Clashes(ps, p.id, p.name, p.canonicalKey, p.employeeId)
    requires j < |ps| && ps[j].id != p.id
    ensures IdentitiesDiffer(p, ps[j]) && IdentitiesDiffer(ps[j], p)
  {
  }

  /** A profile of a valid table does not clash with the others on its own unique columns. */
  lemma OwnIdentityNoClash(ps: seq<Profile>, j: nat)
    requires UniqueIdentities(ps) && j < |ps|
    ensures !Clashes(ps, ps[j].id, ps[j].name, ps[j].canonicalKey, ps[j].employeeId)
  {
    forall i | 0 <= i < |ps| && ps[i].id != ps[j].id
      ensures !(ps[i].name == ps[j].name || ps[i].canonicalKey == ps[j].canonicalKey ||
                (ps[j].employeeId.Some? && ps[i].employeeId == ps[j].employeeId))
    {
      assert IdentitiesDiffer(ps[j], ps[i]);
    }
  }

  /** Inserting a profile with the next id that clashes with nobody keeps the table valid. */
  lemma AppendProfileValid(ps: seq<Profile>, p: Profile, next: nat)
    requires ProfilesValid(ps, next)
    requires p.id == next && next > 0 && !Clashes(ps, p.id, p.name, p.canonicalKey, p.employeeId)
    ensures ProfilesValid(ps + [p], next + 1)
    ensures ProfileIds(ps + [p]) == ProfileIds(ps) + {p.id}
  {
    var r := ps + [p];
    forall i, j | 0 <= i < |r| && 0 <= j < |r| && i != j ensures IdentitiesDiffer(r[i], r[j]) {
      if i == |ps| {
        NoClashDiffers(ps, p, j);
      } else if j == |ps| {
        NoClashDiffers(ps, p, i);
      }
    }
    assert ProfileIds(r) == ProfileIds(ps) + {p.id} by {
      assert r[|ps|] == p;
      forall x | x in ProfileIds(r) ensures x in ProfileIds(ps) + {p.id} {
        var i :| 0 <= i < |r| && r[i].id == x;
        if i < |ps| {
          assert r[i] == ps[i];
        }
      }
      forall x | x in ProfileIds(ps) ensures x in ProfileIds(r) {
        var i :| 0 <= i < |ps| && ps[i].id == x;
        assert r[i] == ps[i];
      }
    }
  }

  /** Rewriting an existing profile's row so that it clashes with nobody keeps the table valid. */
  lemma ReplaceProfileValid(ps: seq<Profile>, p: Profile, next: nat)
    requires ProfilesValid(ps, next)
    requires p.id in ProfileIds(ps) && !Clashes(ps, p.id, p.name, p.canonicalKey, p.employeeId)
    ensures ProfilesValid(ReplaceProfile(ps, p), next)
    ensures ProfileIds(ReplaceProfile(ps, p)) == ProfileIds(ps)
  {
    ReplaceProfileAt(ps, p);
    ReplaceProfileUnique(ps, p);
    ReplaceProfileIds(ps, p);
  }

  /** Touching a profile keeps the table valid and its ids. */
  lemma TouchProfileValid(ps: seq<Profile>, id: nat, now: int, next: nat)
    requires ProfilesValid(ps, next)
    ensures ProfilesValid(TouchProfile(ps, id, now), next)
    ensures ProfileIds(TouchProfile(ps, id, now)) == ProfileIds(ps)
  {
    TouchProfileAt(ps, id, now);
    TouchProfileIds(ps, id, now);
    var r := TouchProfile(ps, id, now);
    forall i, j | 0 <= i < |r| && 0 <= j < |r| && i != j ensures IdentitiesDiffer(r[i], r[j]) {
      assert IdentitiesDiffer(ps[i], ps[j]);
    }
  }

  lemma TouchProfileIds(ps: seq<Profile>, id: nat, now: int)
    ensures ProfileIds(TouchProfile(ps, id, now)) == ProfileIds(ps)
  {
    TouchProfileAt(ps, id, now);
    var r := TouchProfile(ps, id, now);
    forall x | x in ProfileIds(r) ensures x in ProfileIds(ps) {
      var i :| 0 <= i < |r| && r[i].id == x;
      assert ps[i].id == x;
    }
    forall x | x in ProfileIds(ps) ensures x in ProfileIds(r) {
      var i :| 0 <= i < |ps| && ps[i].id == x;
      assert r[i].id == x;
    }
  }

  lemma ReplaceProfileUnique(ps: seq<Profile>, p: Profile)
    requires ProfileIdsIncreasing(ps) && UniqueIdentities(ps)
    requires !Clashes(ps, p.id, p.name, p.canonicalKey, p.employeeId)
    ensures UniqueIdentities(ReplaceProfile(ps, p))
  {
    var r := ReplaceProfile(ps, p);
    ReplaceProfileAt(ps, p);
    forall i, j | 0 <= i < |r| && 0 <= j < |r| && i != j ensures IdentitiesDiffer(r[i], r[j]) {
      assert ps[i].id != ps[j].id;
      if ps[i].id == p.id {
        assert r[i] == p && r[j] == ps[j];
        NoClashDiffers(ps, p, j);
      } else if ps[j].id == p.id {
        assert r[j] == p && r[i] == ps[i];
        NoClashDiffers(ps, p, i);
      } else {
        assert r[i] == ps[i] && r[j] == ps[j];
      }
    }
  }

  lemma ReplaceProfileIds(ps: seq<Profile>, p: Profile)
    requires p.id in ProfileIds(ps)
    ensures ProfileIds(ReplaceProfile(ps, p)) == ProfileIds(ps)
  {
    var r := ReplaceProfile(ps, p);
    ReplaceProfileAt(ps, p);
    forall x | x in ProfileIds(r) ensures x in ProfileIds(ps) {
      var i :| 0 <= i < |r| && r[i].id == x;
      assert r[i].id == ps[i].id;
    }
    forall x | x in ProfileIds(ps) ensures x in ProfileIds(r) {
      var i :| 0 <= i < |ps| && ps[i].id == x;
      assert r[i].id == x;
    }
  }
}
