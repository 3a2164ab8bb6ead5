/**
 * The four tables of the worker database held in memory, and the operations
 * of the server that change them: deleting one rating or note, replacing a
 * worker's history or notes, deleting a profile with its rows, clearing
 * everything, merging two profiles, and saving a rating or a profile through
 * identity resolution. Each operation runs as one transaction: when it fails,
 * nothing changes.
 */
module Store {
  import opened Wrappers
  import opened Canonical
  import opened Ordering
  import opened Records
  import opened Analytics
  import opened Identity
  import opened Validation

  /** Why an operation was refused. */
  datatype StoreError =
    | Invalid(reason: ValidationError)  // 400: the payload failed validation
    | BadIds                            // 400: merge ids missing, zero or equal
    | ProfileNotFound                   // 404
    | Conflict                          // 409: a uniqueness constraint would be violated

  /** The profile a save wrote to, and whether it was created (201) rather than updated (200). */
  datatype Saved = Saved(id: nat, created: bool)

  /** The history row written for a history entry of a payload. */
  function HistoryDataOf(e: HistoryInput, now: int): HistoryData
    requires e.score.Number?
  {
    var note := Strip(e.note);
    HistoryData(Strip(e.category), e.score.value, if note == [] then None else Some(note), e.createdAt.GetOr(now))
  }

  function HistoryRowsData(entries: seq<HistoryInput>, now: int): seq<HistoryData>
    requires forall i :: 0 <= i < |entries| ==> entries[i].score.Number?
  {
    seq(|entries|, i requires 0 <= i < |entries| => HistoryDataOf(entries[i], now))
  }

  /** The note row written for a note of a payload. */
  function NoteDataOf(n: NoteInput, now: int): NoteData {
    NoteData(Strip(n.note), n.createdAt.GetOr(now))
  }

  function NoteRowsData(notes: seq<NoteInput>, now: int): seq<NoteData> {
    seq(|notes|, i requires 0 <= i < |notes| => NoteDataOf(notes[i], now))
  }

  /** Deleting entry `id` of worker `w`: the table stays valid, and other workers keep their rows. */
  lemma DeleteEntryFacts<T>(rows: seq<Row<T>>, next: nat, owners: set<nat>, w: nat, id: nat)
    requires TableValid(rows, next, owners)
    ensures TableValid(Where(rows, NotEntry(w, id)), next, owners)
    ensures |Where(rows, NotEntry(w, id))| == |rows| - (if HasEntry(rows, w, id) then 1 else 0)
    ensures forall v :: v != w ==> Where(Where(rows, NotEntry(w, id)), WorkerIs(v)) == Where(rows, WorkerIs(v))
  {
    WhereIncreasing(rows, NotEntry(w, id));
    WhereBelow(rows, NotEntry(w, id), next);
    WhereOwners(rows, NotEntry(w, id), owners);
    if HasEntry(rows, w, id) {
      WhereWithoutPresentEntry(rows, w, id);
    } else {
      WhereWithoutMissingEntry(rows, w, id);
    }
    forall v | v != w ensures Where(Where(rows, NotEntry(w, id)), WorkerIs(v)) == Where(rows, WorkerIs(v)) {
      WhereWithoutEntry(rows, w, id, v);
    }
  }

  /** Dropping worker `w`'s rows keeps the table valid for the remaining profiles. */
  lemma DropWorkerFacts<T>(rows: seq<Row<T>>, next: nat, owners: set<nat>, w: nat)
    requires TableValid(rows, next, owners)
    ensures TableValid(Where(rows, WorkerIsNot(w)), next, owners - {w})
    ensures TableValid(Where(rows, WorkerIsNot(w)), next, owners)
  {
    WhereIncreasing(rows, WorkerIsNot(w));
    WhereBelow(rows, WorkerIsNot(w), next);
    OwnersWithout(rows, owners, w);
    WhereOwners(rows, WorkerIsNot(w), owners);
  }

  /** Re-pointing `from`'s rows to `to` keeps the table valid once `from` is gone. */
  lemma ReparentFacts<T>(rows: seq<Row<T>>, next: nat, owners: set<nat>, from: nat, to: nat)
    requires TableValid(rows, next, owners) && to in owners && to != from
    ensures TableValid(Reparent(rows, from, to), next, owners - {from})
  {
    ReparentKeepsIds(rows, from, to, next, owners);
    ReparentOwnersWithout(rows, from, to, owners);
  }

  /** The table after each of `data` is inserted for `w`, in order, under consecutive ids. */
  lemma InsertRowsFacts<T>(rows: seq<Row<T>>, next: nat, owners: set<nat>, w: nat, data: seq<T>)
    requires TableValid(rows, next, owners) && w in owners
    ensures TableValid(rows + NewRows(next, w, data), next + |data|, owners)
    decreases |data|
  {
    if data != [] {
      var init := data[..|data| - 1];
      var last := data[|data| - 1];
      assert data == init + [last];
      InsertRowsFacts(rows, next, owners, w, init);
      NewRowsSnoc(next, w, init, last);
      assert rows + NewRows(next, w, data) == (rows + NewRows(next, w, init)) + [Row(next + |init|, w, last)];
      AppendKeepsIds(rows + NewRows(next, w, init), Row(next + |init|, w, last), next + |init|, owners);
    }
  }

  /** The schema's constraints over the four tables and their id counters. */
  predicate TablesValid(ps: seq<Profile>, rs: seq<Rating>, hs: seq<HistoryEntry>, ns: seq<ProfileNote>,
                        nextProfile: nat, nextRating: nat, nextHistory: nat, nextNote: nat)
  {
    0 < nextProfile && ProfilesValid(ps, nextProfile) &&
    TableValid(rs, nextRating, ProfileIds(ps)) &&
    TableValid(hs, nextHistory, ProfileIds(ps)) &&
    TableValid(ns, nextNote, ProfileIds(ps))
  }

  /** Deleting profile `id` with its rows (ON DELETE CASCADE) keeps the tables valid. */
  lemma CascadeValid(ps: seq<Profile>, rs: seq<Rating>, hs: seq<HistoryEntry>, ns: seq<ProfileNote>,
                     np: nat, nr: nat, nh: nat, nn: nat, id: nat)
    requires TablesValid(ps, rs, hs, ns, np, nr, nh, nn)
    ensures ProfileIds(RemoveProfile(ps, id)) == ProfileIds(ps) - {id}
    ensures TablesValid(RemoveProfile(ps, id), Where(rs, WorkerIsNot(id)), Where(hs, WorkerIsNot(id)),
                        Where(ns, WorkerIsNot(id)), np, nr, nh, nn)
  {
    RemoveProfileIds(ps, id);
    RemoveProfileIncreasing(ps, id);
    RemoveProfileBelow(ps, id, np);
    RemoveProfileUnique(ps, id);
    DropWorkerFacts(rs, nr, ProfileIds(ps), id);
    DropWorkerFacts(hs, nh, ProfileIds(ps), id);
    DropWorkerFacts(ns, nn, ProfileIds(ps), id);
  }

  /** The insert loop of `replace_profile_history`: one row per entry, ids counting up from `first`. */
  method InsertHistoryRows(base: seq<HistoryEntry>, workerId: nat, entries: seq<HistoryInput>, first: nat, now: int)
    returns (rows: seq<HistoryEntry>, next: nat)
    requires forall i :: 0 <= i < |entries| ==> entries[i].score.Number?
    ensures rows == base + NewRows(first, workerId, HistoryRowsData(entries, now))
    ensures next == first + |entries|
  {
    ghost var data := HistoryRowsData(entries, now);
    rows, next := base, first;
    var i := 0;
    while i < |entries|
      invariant 0 <= i <= |entries|
      invariant next == first + i
      invariant rows == base + NewRows(first, workerId, data[..i])
    {
      var row := Row(next, workerId, HistoryDataOf(entries[i], now));
      assert data[..i + 1] == data[..i] + [data[i]];
      NewRowsSnoc(first, workerId, data[..i], data[i]);
      rows := rows + [row];
      next := next + 1;
      i := i + 1;
    }
    assert data[..i] == data;
  }

  /** The insert loop of `replace_profile_notes`. */
  method InsertNoteRows(base: seq<ProfileNote>, workerId: nat, entries: seq<NoteInput>, first: nat, now: int)
    returns (rows: seq<ProfileNote>, next: nat)
    ensures rows == base + NewRows(first, workerId, NoteRowsData(entries, now))
    ensures next == first + |entries|
  {
    ghost var data := NoteRowsData(entries, now);
    rows, next := base, first;
    var i := 0;
    while i < |entries|
      invariant 0 <= i <= |entries|
      invariant next == first + i
      invariant rows == base + NewRows(first, workerId, data[..i])
    {
      var row := Row(next, workerId, NoteDataOf(entries[i], now));
      assert data[..i + 1] == data[..i] + [data[i]];
      NewRowsSnoc(first, workerId, data[..i], data[i]);
      rows := rows + [row];
      next := next + 1;
      i := i + 1;
    }
    assert data[..i] == data;
  }

  /** Replacing worker `w`'s rows by fresh ones keeps the table valid; `w` then owns exactly those. */
  lemma ReplaceRowsFacts<T>(rows: seq<Row<T>>, next: nat, owners: set<nat>, w: nat, data: seq<T>)
    requires TableValid(rows, next, owners) && w in owners
    ensures TableValid(Where(rows, WorkerIsNot(w)) + NewRows(next, w, data), next + |data|, owners)
    ensures forall v ::
      Where(Where(rows, WorkerIsNot(w)) + NewRows(next, w, data), WorkerIs(v)) == (if v == w then NewRows(next, w, data) else Where(rows, WorkerIs(v)))
  {
    DropWorkerFacts(rows, next, owners, w);
    InsertRowsFacts(Where(rows, WorkerIsNot(w)), next, owners, w, data);
    forall v ensures Where(Where(rows, WorkerIsNot(w)) + NewRows(next, w, data), WorkerIs(v)) ==
      (if v == w then NewRows(next, w, data) else Where(rows, WorkerIs(v)))
    {
      ReplaceRowsOwnership(rows, w, next, data, v);
    }
  }

  // ---------------------------------------------------------------------------
  // Merging two profiles

  /** The profile table after a merge: the source row deleted and the target's `updated_at` set to `now`. */
  function MergedProfiles(ps: seq<Profile>, source: nat, target: nat, now: int): seq<Profile> {
    TouchProfile(RemoveProfile(ps, source), target, now)
  }

  /** A merge of two different existing profiles keeps the tables valid, and only the source's id disappears. */
  lemma MergeValid(ps: seq<Profile>, rs: seq<Rating>, hs: seq<HistoryEntry>, ns: seq<ProfileNote>,
                   np: nat, nr: nat, nh: nat, nn: nat, source: nat, target: nat, now: int)
    requires TablesValid(ps, rs, hs, ns, np, nr, nh, nn)
    requires source != target && source in ProfileIds(ps) && target in ProfileIds(ps)
    ensures ProfileIds(MergedProfiles(ps, source, target, now)) == ProfileIds(ps) - {source}
    ensures TablesValid(MergedProfiles(ps, source, target, now), Reparent(rs, source, target),
                        Reparent(hs, source, target), Reparent(ns, source, target), np, nr, nh, nn)
  {
    var rest := RemoveProfile(ps, source);
    RemoveProfileIds(ps, source);
    RemoveProfileIncreasing(ps, source);
    RemoveProfileBelow(ps, source, np);
    RemoveProfileUnique(ps, source);
    TouchProfileValid(rest, target, now, np);
    ReparentFacts(rs, nr, ProfileIds(ps), source, target);
    ReparentFacts(hs, nh, ProfileIds(ps), source, target);
    ReparentFacts(ns, nn, ProfileIds(ps), source, target);
  }

  // ---------------------------------------------------------------------------
  // Saving ratings and profiles

  /**
   * The fields of a rating request, each given as the text `str()` makes of
   * the JSON value. `category` is `None` when the key is absent: validation
   * then reads it as the empty string while the stored text is `str(None)`,
   * that is "None".
   */
  datatype RatingRequest = RatingRequest(
    workerName: string,
    employeeId: Option<string>,
    category: Option<string>,
    score: NumberField,
    reviewer: string,
    note: string,
    ratedAt: Option<int>,
    selectedCriteria: ListField<string>)

  /** The fields of a profile request; `status` is `None` when absent, stored as "None" as above. */
  datatype ProfileRequest = ProfileRequest(
    name: string,
    employeeId: Option<string>,
    status: Option<string>,
    background: string,
    historyEntries: ListField<HistoryInput>,
    profileNotes: ListField<NoteInput>)

  /** The rating columns a request writes. */
  function RatingDataOf(req: RatingRequest, now: int): RatingData
    requires req.score.Number?
  {
    RatingData(Strip(req.category.GetOr("None")), req.score.value, Strip(req.reviewer), Strip(req.note), req.ratedAt.GetOr(now))
  }

  /** The history note that records a logged rating: "Rating logged by R", followed by ": N" when there is a note. */
  function LogNote(reviewer: string, note: string): string {
    "Rating logged by " + reviewer + (if note == [] then "" else ": " + note)
  }

  /** The history entry written alongside a rating. */
  function LoggedHistory(d: RatingData): HistoryData {
    HistoryData(d.category, d.score, Some(LogNote(d.reviewer, d.note)), d.ratedAt)
  }

  /** A profile row with its latest-rating columns set from `d`. */
  function WithRating(p: Profile, d: RatingData, now: int): Profile {
    p.(jobCategory := Some(d.category), score := Some(d.score), reviewer := Some(d.reviewer),
       notes := Some(d.note), ratedAt := Some(d.ratedAt), updatedAt := now)
  }

  /** The identity columns a save computes from the submitted name and employee id. */
  datatype WorkerIdentity = WorkerIdentity(name: string, employeeId: Option<string>, canonicalName: string, key: string)

  /** The trimmed name, the normalised employee id, the normalised name and the canonical key. */
  function IdentityOf(workerName: string, employeeId: Option<string>): WorkerIdentity {
    var name := Strip(workerName);
    var id := NormalizeEmployeeId(employeeId);
    WorkerIdentity(name, id, NormalizeWorkerName(name), CanonicalWorkerKey(name, id))
  }

  /**
   * The identity a save stores is in normal form, and its key is built from
   * its own canonical name and employee id (normalising the id a second time
   * changes nothing).
   */
  lemma IdentityOfShape(workerName: string, employeeId: Option<string>)
    ensures var ident := IdentityOf(workerName, employeeId);
      IsNormalName(ident.canonicalName) &&
      (ident.employeeId.Some? ==> IsNormalEmployeeId(ident.employeeId.value)) &&
      ident.key == JoinKey(ident.canonicalName, ident.employeeId)
  {
    var name := Strip(workerName);
    var id := NormalizeEmployeeId(employeeId);
    NormalizedNameIsNormal(name);
    NormalizeEmployeeIdShape(employeeId);
    if id.Some? {
      NormalEmployeeIdIsFixpoint(id.value);
    }
  }

  /** The existing profile an identity resolves to, if any. */
  function Resolve(ps: seq<Profile>, ident: WorkerIdentity): Option<Profile> {
    FindProfileByRatingIdentity(ps, ident.name, ident.key, ident.employeeId)
  }

  /**
   * The profile row a rating submission writes: the resolved profile with the
   * new rating and identity columns (its name kept), or a new row under the
   * next id.
   */
  function SubmittedProfile(ps: seq<Profile>, ident: WorkerIdentity, d: RatingData, nextId: nat, now: int): Profile {
    match Resolve(ps, ident)
    case None =>
      Profile(nextId, ident.name, Some(d.category), Some(d.score), Some(d.reviewer), Some(d.note), Some(d.ratedAt),
              now, now, None, None, ident.employeeId, ident.canonicalName, ident.key)
    case Some(q) =>
      WithRating(q, d, now).(employeeId := ident.employeeId, canonicalName := ident.canonicalName, canonicalKey := ident.key)
  }

  /**
   * The profile row a profile creation writes: the resolved profile with the
   * new status, background and identity columns (its name kept), or a new
   * row under the next id with no rating yet.
   */
  function CreatedProfile(ps: seq<Profile>, ident: WorkerIdentity, status: string, background: string, nextId: nat, now: int): Profile {
    match Resolve(ps, ident)
    case None =>
      Profile(nextId, ident.name, None, None, None, None, None, now, now, Some(status), Some(background),
              ident.employeeId, ident.canonicalName, ident.key)
    case Some(q) =>
      q.(status := Some(status), background := Some(background), employeeId := ident.employeeId,
         canonicalName := ident.canonicalName, canonicalKey := ident.key, updatedAt := now)
  }

  /** Whether writing row `p` would break a uniqueness constraint of the profile table. */
  predicate WriteClashes(ps: seq<Profile>, p: Profile) {
    Clashes(ps, p.id, p.name, p.canonicalKey, p.employeeId)
  }

  /** The next id is free, and a resolved profile's id is taken: a save either creates or updates. */
  lemma ResolvedOrFresh(ps: seq<Profile>, ident: WorkerIdentity, np: nat)
    requires ProfileIdsBelow(ps, np)
    ensures np !in ProfileIds(ps)
    ensures Resolve(ps, ident).Some? ==> Resolve(ps, ident).value.id in ProfileIds(ps)
  {
    assert forall i :: 0 <= i < |ps| ==> ps[i].id != np;
    var r := Resolve(ps, ident);
    if r.Some? {
      var i :| 0 <= i < |ps| && ps[i] == r.value;
      assert r.value.id == ps[i].id;
    }
  }

  /**
   * Writing a resolved or new profile row keeps the profile table valid when
   * the row clashes with no other profile: the uniqueness constraints hold
   * exactly because a clashing write is refused.
   */
  lemma SaveProfileValid(ps: seq<Profile>, p: Profile, np: nat)
    requires ProfilesValid(ps, np) && np > 0
    requires p.id == np || p.id in ProfileIds(ps)
    requires !Clashes(ps, p.id, p.name, p.canonicalKey, p.employeeId)
    ensures var ps' := if p.id in ProfileIds(ps) then ReplaceProfile(ps, p) else ps + [p];
      ProfilesValid(ps', if p.id in ProfileIds(ps) then np else np + 1) &&
      ProfileIds(ps') == ProfileIds(ps) + {p.id}
  {
    if p.id in ProfileIds(ps) {
      ReplaceProfileValid(ps, p, np);
    } else {
      AppendProfileValid(ps, p, np);
    }
  }

  /** Writing a row's latest-rating columns changes none of its unique columns, so the write clashes with nobody. */
  lemma SnapshotNoClash(ps: seq<Profile>, q: Profile, d: RatingData, now: int)
    requires UniqueIdentities(ps) && q in ps
    ensures WithRating(q, d, now).id in ProfileIds(ps)
    ensures !WriteClashes(ps, WithRating(q, d, now))
  {
    var j :| 0 <= j < |ps| && ps[j] == q;
    OwnIdentityNoClash(ps, j);
  }

  /** Appending a rating and its history entry for an existing profile keeps the tables valid. */
  lemma LogRatingValid(ps: seq<Profile>, rs: seq<Rating>, hs: seq<HistoryEntry>, ns: seq<ProfileNote>,
                       np: nat, nr: nat, nh: nat, nn: nat, w: nat, d: RatingData)
    requires TablesValid(ps, rs, hs, ns, np, nr, nh, nn) && w in ProfileIds(ps)
    ensures TablesValid(ps, rs + [Row(nr, w, d)], hs + [Row(nh, w, LoggedHistory(d))], ns, np, nr + 1, nh + 1, nn)
  {
    AppendKeepsIds(rs, Row(nr, w, d), nr, ProfileIds(ps));
    AppendKeepsIds(hs, Row(nh, w, LoggedHistory(d)), nh, ProfileIds(ps));
  }

  // ---------------------------------------------------------------------------
  // Reading a profile back

  /** The ordering key of a note: its timestamp, then its id. */
  function NoteStamp(n: ProfileNote): Stamp {
    Stamp(n.data.createdAt, n.id)
  }

  /** The categories of the given ratings, in order. */
  function Categories(rs: seq<Rating>): seq<string> {
    seq(|rs|, i requires 0 <= i < |rs| => rs[i].data.category)
  }

  lemma CategoriesMembers(rs: seq<Rating>)
    ensures forall c :: c in Elems(Categories(rs)) ==> exists x :: x in rs && x.data.category == c
    ensures forall x :: x in rs ==> x.data.category in Elems(Categories(rs))
  {
    var cs := Categories(rs);
    forall c | c in Elems(cs) ensures exists x :: x in rs && x.data.category == c {
      var i :| 0 <= i < |cs| && cs[i] == c;
      assert rs[i] in rs;
    }
    forall x | x in rs ensures x.data.category in Elems(cs) {
      var i :| 0 <= i < |rs| && rs[i] == x;
      assert cs[i] == x.data.category;
    }
  }

  /** What `build_profile` returns for a profile row. */
  datatype ProfileView = ProfileView(
    profile: Profile,
    ratings: seq<Rating>,
    historyEntries: seq<HistoryEntry>,
    profileNotes: seq<ProfileNote>,
    jobCategories: seq<string>,
    overallScore: real,
    analytics: Metrics)

  /**
   * `build_profile` over the tables: the profile row, its ratings in
   * (rated-at, id) order, its history in id order, its notes in
   * (created-at, id) order, the distinct categories of its ratings in
   * increasing order, and the metrics of its ratings, whose overall score
   * is repeated at the top level.
   */
  function BuildProfile(p: Profile, rs: seq<Rating>, hs: seq<HistoryEntry>, ns: seq<ProfileNote>, sqrt: real -> real): ProfileView {
    var ratings := InTimeOrder(Where(rs, WorkerIs(p.id)));
    var metrics := MetricsOf(ratings, sqrt);
    ProfileView(p, ratings, Where(hs, WorkerIs(p.id)), SortBy(Where(ns, WorkerIs(p.id)), NoteStamp),
                SortedDistinct(Categories(ratings)), metrics.normalizedOverallScore, metrics)
  }

  /**
   * The lists of a built profile: the ratings and the notes are exactly the
   * profile's rows, each list sorted by its stamp; the history holds exactly
   * the profile's entries, in increasing id order when the table is.
   */
  lemma BuildProfileRows(p: Profile, rs: seq<Rating>, hs: seq<HistoryEntry>, ns: seq<ProfileNote>, sqrt: real -> real)
    ensures var v := BuildProfile(p, rs, hs, ns, sqrt);
      v.profile == p &&
      SortedBy(v.ratings, RatingStamp) && multiset(v.ratings) == multiset(Where(rs, WorkerIs(p.id))) &&
      SortedBy(v.profileNotes, NoteStamp) && multiset(v.profileNotes) == multiset(Where(ns, WorkerIs(p.id)))
    ensures var v := BuildProfile(p, rs, hs, ns, sqrt);
      (forall x :: x in v.historyEntries <==> x in hs && x.workerId == p.id) &&
      (IdsIncreasing(hs) ==> IdsIncreasing(v.historyEntries))
  {
    SortByCorrect(Where(rs, WorkerIs(p.id)), RatingStamp);
    SortByCorrect(Where(ns, WorkerIs(p.id)), NoteStamp);
    WhereMembers(hs, WorkerIs(p.id));
    if IdsIncreasing(hs) {
      WhereIncreasing(hs, WorkerIs(p.id));
    }
  }

  /** Rows with increasing ids never share a (time, id) stamp. */
  lemma IncreasingStampsInjective(s: seq<Rating>)
    requires IdsIncreasing(s)
    ensures KeyInjective(s, RatingStamp)
  {
    forall i, j | 0 <= i < |s| && 0 <= j < |s| && RatingStamp(s[i]) == RatingStamp(s[j]) ensures i == j {
    }
  }

  /** The job categories of a built profile are strictly increasing and are exactly the categories of its ratings. */
  lemma BuildProfileCategories(p: Profile, rs: seq<Rating>, hs: seq<HistoryEntry>, ns: seq<ProfileNote>, sqrt: real -> real)
    ensures var v := BuildProfile(p, rs, hs, ns, sqrt);
      StrictlySorted(v.jobCategories) &&
      (forall c :: c in v.jobCategories <==> exists x :: x in v.ratings && x.data.category == c)
  {
    var ratings := InTimeOrder(Where(rs, WorkerIs(p.id)));
    var cs := SortedDistinct(Categories(ratings));
    SortedDistinctCorrect(Categories(ratings));
    CategoriesMembers(ratings);
    forall c ensures c in cs <==> c in Elems(Categories(ratings)) {
      assert c in cs <==> c in Elems(cs);
    }
  }

  /** The overall score of a built profile is the metrics' normalised score, within [0, 5]. */
  lemma BuildProfileScore(p: Profile, rs: seq<Rating>, hs: seq<HistoryEntry>, ns: seq<ProfileNote>, sqrt: real -> real)
    ensures var v := BuildProfile(p, rs, hs, ns, sqrt);
      v.overallScore == v.analytics.normalizedOverallScore && 0.0 <= v.overallScore <= 5.0
  {
    MetricsBounds(InTimeOrder(Where(rs, WorkerIs(p.id))), sqrt);
  }

  /** With row ids unique, the metrics of a built profile are those of the profile's ratings taken in any order. */
  lemma BuildProfileMetrics(p: Profile, rs: seq<Rating>, hs: seq<HistoryEntry>, ns: seq<ProfileNote>, sqrt: real -> real)
    requires IdsIncreasing(rs)
    ensures BuildProfile(p, rs, hs, ns, sqrt).analytics == MetricsOf(Where(rs, WorkerIs(p.id)), sqrt)
  {
    var own := Where(rs, WorkerIs(p.id));
    WhereIncreasing(rs, WorkerIs(p.id));
    IncreasingStampsInjective(own);
    SortByCorrect(own, RatingStamp);
    MetricsIgnoreOrder(own, InTimeOrder(own), sqrt);
  }

  /** The stored status: the text of the field, "None" when it is absent, trimmed. */
  function StatusText(req: ProfileRequest): string {
    Strip(req.status.GetOr("None"))
  }

  class ProfileStore {
    var profiles: seq<Profile>
    var ratings: seq<Rating>
    var history: seq<HistoryEntry>
    var notes: seq<ProfileNote>
    /** The ids the next inserted rows get (AUTOINCREMENT never reuses an id). */
    var nextProfileId: nat
    var nextRatingId: nat
    var nextHistoryId: nat
    var nextNoteId: nat

    /** The schema's constraints: unique identities, increasing ids, and foreign keys into the profile table. */
    ghost predicate Valid()
      reads this
    {
      TablesValid(profiles, ratings, history, notes, nextProfileId, nextRatingId, nextHistoryId, nextNoteId)
    }

    /** A fresh database: empty tables, ids starting at 1. */
    constructor()
      ensures Valid()
      ensures profiles == [] && ratings == [] && history == [] && notes == []
      ensures nextProfileId == 1 && nextRatingId == 1 && nextHistoryId == 1 && nextNoteId == 1
    {
      profiles, ratings, history, notes := [], [], [], [];
      nextProfileId, nextRatingId, nextHistoryId, nextNoteId := 1, 1, 1, 1;
    }

    /**
     * `delete_rating`: removes the rating with this id only if it belongs to
     * this worker, and reports whether a row was removed.
     */
    method DeleteRating(workerId: nat, ratingId: nat) returns (deleted: bool)
      requires Valid()
      modifies this
      ensures Valid()
      ensures deleted <==> HasEntry(old(ratings), workerId, ratingId)
      ensures ratings == Where(old(ratings), NotEntry(workerId, ratingId))
      ensures |ratings| == |old(ratings)| - (if deleted then 1 else 0)
      ensures forall v :: v != workerId ==> Where(ratings, WorkerIs(v)) == Where(old(ratings), WorkerIs(v))
      ensures profiles == old(profiles) && history == old(history) && notes == old(notes)
      ensures nextProfileId == old(nextProfileId) && nextRatingId == old(nextRatingId)
      ensures nextHistoryId == old(nextHistoryId) && nextNoteId == old(nextNoteId)
    {
      DeleteEntryFacts(ratings, nextRatingId, ProfileIds(profiles), workerId, ratingId);
      var kept := Where(ratings, NotEntry(workerId, ratingId));
      deleted := |kept| < |ratings|;
      ratings := kept;
    }

    /** `delete_profile_note`: the same as `DeleteRating`, on the notes table. */
    method DeleteProfileNote(workerId: nat, noteId: nat) returns (deleted: bool)
      requires Valid()
      modifies this
      ensures Valid()
      ensures deleted <==> HasEntry(old(notes), workerId, noteId)
      ensures notes == Where(old(notes), NotEntry(workerId, noteId))
      ensures |notes| == |old(notes)| - (if deleted then 1 else 0)
      ensures forall v :: v != workerId ==> Where(notes, WorkerIs(v)) == Where(old(notes), WorkerIs(v))
      ensures profiles == old(profiles) && ratings == old(ratings) && history == old(history)
      ensures nextProfileId == old(nextProfileId) && nextRatingId == old(nextRatingId)
      ensures nextHistoryId == old(nextHistoryId) && nextNoteId == old(nextNoteId)
    {
      DeleteEntryFacts(notes, nextNoteId, ProfileIds(profiles), workerId, noteId);
      var kept := Where(notes, NotEntry(workerId, noteId));
      deleted := |kept| < |notes|;
      notes := kept;
    }

    /**
     * `replace_profile_history`: deletes the worker's history, then inserts
     * the given entries in order, each trimmed, an empty note stored as NULL
     * and a missing timestamp replaced by `now`.
     */
    method ReplaceProfileHistory(workerId: nat, entries: seq<HistoryInput>, now: int)
      requires Valid() && workerId in ProfileIds(profiles)
      requires forall i :: 0 <= i < |entries| ==> entries[i].score.Number?
      modifies this
      ensures Valid()
      ensures history == Where(old(history), WorkerIsNot(workerId)) + NewRows(old(nextHistoryId), workerId, HistoryRowsData(entries, now))
      ensures nextHistoryId == old(nextHistoryId) + |entries|
      ensures Where(history, WorkerIs(workerId)) == NewRows(old(nextHistoryId), workerId, HistoryRowsData(entries, now))
      ensures forall v :: v != workerId ==> Where(history, WorkerIs(v)) == Where(old(history), WorkerIs(v))
      ensures profiles == old(profiles) && ratings == old(ratings) && notes == old(notes)
      ensures nextProfileId == old(nextProfileId) && nextRatingId == old(nextRatingId) && nextNoteId == old(nextNoteId)
    {
      ReplaceRowsFacts(history, nextHistoryId, ProfileIds(profiles), workerId, HistoryRowsData(entries, now));
      var rows, next := InsertHistoryRows(Where(history, WorkerIsNot(workerId)), workerId, entries, nextHistoryId, now);
      history, nextHistoryId := rows, next;
    }

    /**
     * `replace_profile_notes`: deletes the worker's notes, then inserts the
     * given notes in order, trimmed, a missing timestamp replaced by `now`.
     */
    method ReplaceProfileNotes(workerId: nat, entries: seq<NoteInput>, now: int)
      requires Valid() && workerId in ProfileIds(profiles)
      modifies this
      ensures Valid()
      ensures notes == Where(old(notes), WorkerIsNot(workerId)) + NewRows(old(nextNoteId), workerId, NoteRowsData(entries, now))
      ensures nextNoteId == old(nextNoteId) + |entries|
      ensures Where(notes, WorkerIs(workerId)) == NewRows(old(nextNoteId), workerId, NoteRowsData(entries, now))
      ensures forall v :: v != workerId ==> Where(notes, WorkerIs(v)) == Where(old(notes), WorkerIs(v))
      ensures profiles == old(profiles) && ratings == old(ratings) && history == old(history)
      ensures nextProfileId == old(nextProfileId) && nextRatingId == old(nextRatingId) && nextHistoryId == old(nextHistoryId)
    {
      ReplaceRowsFacts(notes, nextNoteId, ProfileIds(profiles), workerId, NoteRowsData(entries, now));
      var rows, next := InsertNoteRows(Where(notes, WorkerIsNot(workerId)), workerId, entries, nextNoteId, now);
      notes, nextNoteId := rows, next;
    }

    /**
     * `DELETE /api/profiles/{id}`: removes the profile, and through the
     * foreign keys' ON DELETE CASCADE its ratings, history and notes; reports
     * whether the profile existed (otherwise nothing changes).
     */
    method DeleteProfile(id: nat) returns (found: bool)
      requires Valid()
      modifies this
      ensures Valid()
      ensures found <==> id in ProfileIds(old(profiles))
      ensures found ==> profiles == RemoveProfile(old(profiles), id) && ProfileIds(profiles) == ProfileIds(old(profiles)) - {id}
      ensures found ==> ratings == Where(old(ratings), WorkerIsNot(id)) && history == Where(old(history), WorkerIsNot(id)) &&
                        notes == Where(old(notes), WorkerIsNot(id))
      ensures found ==> Where(ratings, WorkerIs(id)) == [] && Where(history, WorkerIs(id)) == [] && Where(notes, WorkerIs(id)) == []
      ensures !found ==> profiles == old(profiles) && ratings == old(ratings) && history == old(history) && notes == old(notes)
      ensures nextProfileId == old(nextProfileId) && nextRatingId == old(nextRatingId)
      ensures nextHistoryId == old(nextHistoryId) && nextNoteId == old(nextNoteId)
    {
      found := id in ProfileIds(profiles);
      if !found {
        return;
      }
      CascadeValid(profiles, ratings, history, notes, nextProfileId, nextRatingId, nextHistoryId, nextNoteId, id);
      WhereWithoutWorker(ratings, id, id);
      WhereWithoutWorker(history, id, id);
      WhereWithoutWorker(notes, id, id);
      profiles := RemoveProfile(profiles, id);
      ratings := Where(ratings, WorkerIsNot(id));
      history := Where(history, WorkerIsNot(id));
      notes := Where(notes, WorkerIsNot(id));
    }

    /** `DELETE /api/profiles`: empties the four tables; the id counters keep counting. */
    method ClearAll()
      requires Valid()
      modifies this
      ensures Valid()
      ensures profiles == [] && ratings == [] && history == [] && notes == []
      ensures nextProfileId == old(nextProfileId) && nextRatingId == old(nextRatingId)
      ensures nextHistoryId == old(nextHistoryId) && nextNoteId == old(nextNoteId)
    {
      profiles, ratings, history, notes := [], [], [], [];
    }

    /**
     * `POST /api/profiles/merge`: moves every rating, history entry and note
     * of the source profile to the target, deletes the source and touches
     * the target. Ids that are missing (0) or equal are refused, then
     * profiles that do not exist.
     */
    method Merge(sourceId: int, targetId: int, now: int) returns (r: Result<nat, StoreError>)
      requires Valid()
      modifies this
      ensures Valid()
      ensures r == Err(BadIds) <==> sourceId == 0 || targetId == 0 || sourceId == targetId
      ensures r == Err(ProfileNotFound) <==>
        sourceId != 0 && targetId != 0 && sourceId != targetId &&
        (sourceId !in ProfileIds(old(profiles)) || targetId !in ProfileIds(old(profiles)))
      ensures r.Ok? <==>
        sourceId != 0 && targetId != 0 && sourceId != targetId &&
        sourceId in ProfileIds(old(profiles)) && targetId in ProfileIds(old(profiles))
      ensures r.Err? ==> unchanged(this)
      ensures r.Ok? ==> r.value == targetId && 0 < sourceId && sourceId in ProfileIds(old(profiles))
      ensures r.Ok? ==>
        var s, t := sourceId as nat, targetId as nat;
        profiles == MergedProfiles(old(profiles), s, t, now) &&
        ratings == Reparent(old(ratings), s, t) && history == Reparent(old(history), s, t) && notes == Reparent(old(notes), s, t)
      ensures nextProfileId == old(nextProfileId) && nextRatingId == old(nextRatingId)
      ensures nextHistoryId == old(nextHistoryId) && nextNoteId == old(nextNoteId)
    {
      if sourceId == 0 || targetId == 0 || sourceId == targetId {
        return Err(BadIds);
      }
      if sourceId !in ProfileIds(profiles) || targetId !in ProfileIds(profiles) {
        return Err(ProfileNotFound);
      }
      var s, t := sourceId as nat, targetId as nat;
      MergeValid(profiles, ratings, history, notes, nextProfileId, nextRatingId, nextHistoryId, nextNoteId, s, t, now);
      profiles := MergedProfiles(profiles, s, t, now);
      ratings := Reparent(ratings, s, t);
      history := Reparent(history, s, t);
      notes := Reparent(notes, s, t);
      r := Ok(t);
    }

    /**
     * `POST /api/profiles/{id}/ratings`: validates the rating, requires the
     * profile to exist, checks the admin-defined values, then appends the
     * rating and its history entry and updates the profile's latest-rating
     * columns.
     */
    method AddRating(workerId: nat, req: RatingRequest, jobTypes: seq<string>, criteria: seq<string>, now: int)
      returns (r: Result<nat, StoreError>)
      requires Valid()
      modifies this
      ensures Valid()
      ensures var e := ValidateRatingPayload(false, "", req.reviewer, req.score);
        e.Some? ==> r == Err(Invalid(e.value))
      ensures ValidateRatingPayload(false, "", req.reviewer, req.score) == None && workerId !in ProfileIds(old(profiles)) ==>
        r == Err(ProfileNotFound)
      ensures var e := ValidateAllowedRatingValues(req.category.GetOr(""), req.selectedCriteria, jobTypes, criteria);
        ValidateRatingPayload(false, "", req.reviewer, req.score) == None && workerId in ProfileIds(old(profiles)) && e.Some? ==>
          r == Err(Invalid(e.value))
      ensures r.Ok? <==>
        ValidateRatingPayload(false, "", req.reviewer, req.score) == None && workerId in ProfileIds(old(profiles)) &&
        ValidateAllowedRatingValues(req.category.GetOr(""), req.selectedCriteria, jobTypes, criteria) == None
      ensures r.Err? ==> unchanged(this)
      ensures r.Ok? ==> r.value == workerId && req.score.Number? && workerId in ProfileIds(old(profiles))
      ensures r.Ok? ==>
        var d := RatingDataOf(req, now);
        ratings == old(ratings) + [Row(old(nextRatingId), workerId, d)] &&
        history == old(history) + [Row(old(nextHistoryId), workerId, LoggedHistory(d))] &&
        profiles == ReplaceProfile(old(profiles), WithRating(FindProfile(old(profiles), workerId).value, d, now)) &&
        nextRatingId == old(nextRatingId) + 1 && nextHistoryId == old(nextHistoryId) + 1
      ensures notes == old(notes) && nextProfileId == old(nextProfileId) && nextNoteId == old(nextNoteId)
    {
      var invalid := ValidateRatingPayload(false, "", req.reviewer, req.score);
      if invalid.Some? {
        return Err(Invalid(invalid.value));
      }
      if workerId !in ProfileIds(profiles) {
        return Err(ProfileNotFound);
      }
      var notAllowed := ValidateAllowedRatingValues(req.category.GetOr(""), req.selectedCriteria, jobTypes, criteria);
      if notAllowed.Some? {
        return Err(Invalid(notAllowed.value));
      }
      var d := RatingDataOf(req, now);
      var q := FindProfile(profiles, workerId).value;
      SnapshotNoClash(profiles, q, d, now);
      var saved := WriteProfile(WithRating(q, d, now));
      LogRating(workerId, d);
      r := Ok(workerId);
    }

    /**
     * Inserts the profile row `p` under the next id, or makes it replace the
     * row with its id. The caller has checked that the write breaks no
     * uniqueness constraint.
     */
    method WriteProfile(p: Profile) returns (saved: Saved)
      requires Valid()
      requires p.id == nextProfileId || p.id in ProfileIds(profiles)
      requires !WriteClashes(profiles, p)
      modifies this
      ensures Valid()
      ensures saved == Saved(p.id, p.id !in ProfileIds(old(profiles)))
      ensures profiles == (if saved.created then old(profiles) + [p] else ReplaceProfile(old(profiles), p))
      ensures nextProfileId == old(nextProfileId) + (if saved.created then 1 else 0)
      ensures ProfileIds(profiles) == ProfileIds(old(profiles)) + {p.id}
      ensures ratings == old(ratings) && history == old(history) && notes == old(notes)
      ensures nextRatingId == old(nextRatingId) && nextHistoryId == old(nextHistoryId) && nextNoteId == old(nextNoteId)
    {
      var created := p.id !in ProfileIds(profiles);
      SaveProfileValid(profiles, p, nextProfileId);
      var written := if created then profiles + [p] else ReplaceProfile(profiles, p);
      var nextId := if created then nextProfileId + 1 else nextProfileId;
      OwnersWeaken(ratings, ProfileIds(profiles), ProfileIds(written));
      OwnersWeaken(history, ProfileIds(profiles), ProfileIds(written));
      OwnersWeaken(notes, ProfileIds(profiles), ProfileIds(written));
      profiles, nextProfileId := written, nextId;
      assert TablesValid(profiles, ratings, history, notes, nextProfileId, nextRatingId, nextHistoryId, nextNoteId);
      saved := Saved(p.id, created);
    }

    /** Appends a rating of worker `workerId` and the history entry that logs it. */
    method LogRating(workerId: nat, d: RatingData)
      requires Valid() && workerId in ProfileIds(profiles)
      modifies this
      ensures Valid()
      ensures ratings == old(ratings) + [Row(old(nextRatingId), workerId, d)]
      ensures history == old(history) + [Row(old(nextHistoryId), workerId, LoggedHistory(d))]
      ensures nextRatingId == old(nextRatingId) + 1 && nextHistoryId == old(nextHistoryId) + 1
      ensures profiles == old(profiles) && notes == old(notes)
      ensures nextProfileId == old(nextProfileId) && nextNoteId == old(nextNoteId)
    {
      LogRatingValid(profiles, ratings, history, notes, nextProfileId, nextRatingId, nextHistoryId, nextNoteId, workerId, d);
      ratings, history, nextRatingId, nextHistoryId :=
        ratings + [Row(nextRatingId, workerId, d)], history + [Row(nextHistoryId, workerId, LoggedHistory(d))],
        nextRatingId + 1, nextHistoryId + 1;
      assert TablesValid(profiles, ratings, history, notes, nextProfileId, nextRatingId, nextHistoryId, nextNoteId);
    }

    /** The state after the rating `d` by `ident` was saved as `saved`: the profile row, one rating and one history entry written. */
    twostate predicate RatingSaved(ident: WorkerIdentity, d: RatingData, now: int, saved: Saved)
      reads this
    {
      var p := SubmittedProfile(old(profiles), ident, d, old(nextProfileId), now);
      saved.id == p.id &&
      (saved.created <==> p.id !in ProfileIds(old(profiles))) &&
      profiles == (if saved.created then old(profiles) + [p] else ReplaceProfile(old(profiles), p)) &&
      nextProfileId == old(nextProfileId) + (if saved.created then 1 else 0) &&
      ratings == old(ratings) + [Row(old(nextRatingId), p.id, d)] &&
      history == old(history) + [Row(old(nextHistoryId), p.id, LoggedHistory(d))] &&
      nextRatingId == old(nextRatingId) + 1 && nextHistoryId == old(nextHistoryId) + 1 &&
      notes == old(notes) && nextNoteId == old(nextNoteId)
    }

    /**
     * The database part of `POST /api/profiles`: resolves the identity,
     * inserts or updates the profile row, and appends the rating and its
     * history entry, all in one transaction. A write that would break a
     * uniqueness constraint (the `IntegrityError` answered with 409) is
     * rolled back.
     */
    method SaveRating(ident: WorkerIdentity, d: RatingData, now: int) returns (r: Result<Saved, StoreError>)
      requires Valid()
      modifies this
      ensures Valid()
      ensures r.Err? <==> WriteClashes(old(profiles), SubmittedProfile(old(profiles), ident, d, old(nextProfileId), now))
      ensures r.Err? ==> r.error == Conflict && unchanged(this)
      ensures r.Ok? ==> RatingSaved(ident, d, now, r.value)
    {
      var p := SubmittedProfile(profiles, ident, d, nextProfileId, now);
      ResolvedOrFresh(profiles, ident, nextProfileId);
      if WriteClashes(profiles, p) {
        return Err(Conflict);
      }
      var saved := WriteProfile(p);
      LogRating(p.id, d);
      r := Ok(saved);
    }

    /**
     * `POST /api/profiles`: validates the rating (worker name required),
     * then the admin-defined values, then saves it under the identity made
     * from the trimmed worker name and the normalised employee id.
     */
    method SubmitRating(req: RatingRequest, jobTypes: seq<string>, criteria: seq<string>, now: int)
      returns (r: Result<Saved, StoreError>)
      requires Valid()
      modifies this
      ensures Valid()
      ensures var e := ValidateRatingPayload(true, req.workerName, req.reviewer, req.score);
        e.Some? ==> r == Err(Invalid(e.value))
      ensures var e := ValidateAllowedRatingValues(req.category.GetOr(""), req.selectedCriteria, jobTypes, criteria);
        ValidateRatingPayload(true, req.workerName, req.reviewer, req.score) == None && e.Some? ==> r == Err(Invalid(e.value))
      ensures r.Err? ==> unchanged(this)
      ensures r == Err(Conflict) <==>
        ValidateRatingPayload(true, req.workerName, req.reviewer, req.score) == None &&
        ValidateAllowedRatingValues(req.category.GetOr(""), req.selectedCriteria, jobTypes, criteria) == None &&
        WriteClashes(old(profiles), SubmittedProfile(old(profiles), IdentityOf(req.workerName, req.employeeId),
                                                     RatingDataOf(req, now), old(nextProfileId), now))
      ensures r.Ok? <==>
        ValidateRatingPayload(true, req.workerName, req.reviewer, req.score) == None &&
        ValidateAllowedRatingValues(req.category.GetOr(""), req.selectedCriteria, jobTypes, criteria) == None &&
        !WriteClashes(old(profiles), SubmittedProfile(old(profiles), IdentityOf(req.workerName, req.employeeId),
                                                      RatingDataOf(req, now), old(nextProfileId), now))
      ensures r.Ok? ==> req.score.Number? && RatingSaved(IdentityOf(req.workerName, req.employeeId), RatingDataOf(req, now), now, r.value)
    {
      var invalid := ValidateRatingPayload(true, req.workerName, req.reviewer, req.score);
      if invalid.Some? {
        return Err(Invalid(invalid.value));
      }
      var notAllowed := ValidateAllowedRatingValues(req.category.GetOr(""), req.selectedCriteria, jobTypes, criteria);
      if notAllowed.Some? {
        return Err(Invalid(notAllowed.value));
      }
      r := SaveRating(IdentityOf(req.workerName, req.employeeId), RatingDataOf(req, now), now);
    }

    /** The profile table after the profile row of `ident` was saved as `saved`. */
    twostate predicate ProfileRowSaved(ident: WorkerIdentity, status: string, background: string, now: int, saved: Saved)
      reads this
    {
      var p := CreatedProfile(old(profiles), ident, status, background, old(nextProfileId), now);
      saved.id == p.id &&
      (saved.created <==> p.id !in ProfileIds(old(profiles))) &&
      profiles == (if saved.created then old(profiles) + [p] else ReplaceProfile(old(profiles), p)) &&
      nextProfileId == old(nextProfileId) + (if saved.created then 1 else 0)
    }

    /** The profile-row part of `POST /api/profiles/create`: insert or update, refused on a uniqueness conflict. */
    method SaveProfileRow(ident: WorkerIdentity, status: string, background: string, now: int) returns (r: Result<Saved, StoreError>)
      requires Valid()
      modifies this
      ensures Valid()
      ensures r.Err? <==> WriteClashes(old(profiles), CreatedProfile(old(profiles), ident, status, background, old(nextProfileId), now))
      ensures r.Err? ==> r.error == Conflict && unchanged(this)
      ensures r.Ok? ==> ProfileRowSaved(ident, status, background, now, r.value) && r.value.id in ProfileIds(profiles)
      ensures ratings == old(ratings) && history == old(history) && notes == old(notes)
      ensures nextRatingId == old(nextRatingId) && nextHistoryId == old(nextHistoryId) && nextNoteId == old(nextNoteId)
    {
      var p := CreatedProfile(profiles, ident, status, background, nextProfileId, now);
      ResolvedOrFresh(profiles, ident, nextProfileId);
      if WriteClashes(profiles, p) {
        return Err(Conflict);
      }
      var saved := WriteProfile(p);
      r := Ok(saved);
    }

    /**
     * `POST /api/profiles/create`: validates the payload, saves the profile
     * row under the identity made from the trimmed name and the normalised
     * employee id, then replaces the worker's history and notes with the
     * given ones. A uniqueness conflict rolls the whole save back.
     */
    method CreateProfile(req: ProfileRequest, now: int) returns (r: Result<Saved, StoreError>)
      requires Valid()
      modifies this
      ensures Valid()
      ensures var e := ValidateProfilePayload(req.name, req.historyEntries, req.profileNotes);
        e.Some? ==> r == Err(Invalid(e.value))
      ensures r.Err? ==> unchanged(this)
      ensures r == Err(Conflict) <==>
        ValidateProfilePayload(req.name, req.historyEntries, req.profileNotes) == None &&
        WriteClashes(old(profiles), CreatedProfile(old(profiles), IdentityOf(req.name, req.employeeId),
                                                   StatusText(req), Strip(req.background), old(nextProfileId), now))
      ensures r.Ok? <==>
        ValidateProfilePayload(req.name, req.historyEntries, req.profileNotes) == None &&
        !WriteClashes(old(profiles), CreatedProfile(old(profiles), IdentityOf(req.name, req.employeeId),
                                                    StatusText(req), Strip(req.background), old(nextProfileId), now))
      ensures r.Ok? ==>
        ProfileRowSaved(IdentityOf(req.name, req.employeeId), StatusText(req), Strip(req.background), now, r.value) &&
        AllHistoryValid(ItemsOr(req.historyEntries)) && AllNotesValid(ItemsOr(req.profileNotes))
      ensures r.Ok? ==>
        var w, entries, given := r.value.id, ItemsOr(req.historyEntries), ItemsOr(req.profileNotes);
        (forall i :: 0 <= i < |entries| ==> entries[i].score.Number?) &&
        Where(history, WorkerIs(w)) == NewRows(old(nextHistoryId), w, HistoryRowsData(entries, now)) &&
        Where(notes, WorkerIs(w)) == NewRows(old(nextNoteId), w, NoteRowsData(given, now)) &&
        nextHistoryId == old(nextHistoryId) + |entries| && nextNoteId == old(nextNoteId) + |given|
      ensures r.Ok? ==> forall v :: v != r.value.id ==>
        Where(history, WorkerIs(v)) == Where(old(history), WorkerIs(v)) && Where(notes, WorkerIs(v)) == Where(old(notes), WorkerIs(v))
      ensures ratings == old(ratings) && nextRatingId == old(nextRatingId)
    {
      var invalid := ValidateProfilePayload(req.name, req.historyEntries, req.profileNotes);
      if invalid.Some? {
        return Err(Invalid(invalid.value));
      }
      ValidateProfilePayloadCorrect(req.name, req.historyEntries, req.profileNotes);
      var entries, given := ItemsOr(req.historyEntries), ItemsOr(req.profileNotes);
      assert forall i :: 0 <= i < |entries| ==> HistoryEntryError(entries[i]) == None;
      r := SaveProfileRow(IdentityOf(req.name, req.employeeId), StatusText(req), Strip(req.background), now);
      if r.Err? {
        return;
      }
      ReplaceProfileHistory(r.value.id, entries, now);
      ReplaceProfileNotes(r.value.id, given, now);
    }
  }
}
