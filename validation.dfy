/**
 * Validation of request payloads and the case-insensitive de-duplication of
 * the admin-defined lists (job types and criteria names).
 *
 * A text field is given as the text Python's `str()` makes of the JSON value
 * (an absent field with an empty default is the empty string); a number field
 * is given as the outcome of `float()` on it.
 */
module Validation {
  import opened Wrappers
  import opened Canonical

  /** The outcome of `float(value)` on a payload field; scores are whole numbers in this model. */
  datatype NumberField = Missing | Null | NotANumber | Number(value: int)

  /** A payload field that must be a JSON array when present; `null` counts as absent. */
  datatype ListField<T> = Absent | NotAList | Items(items: seq<T>)

  /** One entry of `historyEntries`. */
  datatype HistoryInput = HistoryInput(category: string, score: NumberField, note: string, createdAt: Option<int>)

  /** One entry of `profileNotes`. */
  datatype NoteInput = NoteInput(note: string, createdAt: Option<int>)

  datatype ValidationError =
    | WorkerNameTooShort
    | ScoreOutOfRange
    | MissingReviewer
    | HistoryCategoryMissing
    | HistoryScoreOutOfRange
    | NoteTextMissing
    | NameTooShort
    | HistoryNotAList
    | NotesNotAList
    | CategoryNotAllowed(allowedJobTypes: seq<string>)
    | CriteriaNotAList
    | CriterionMissing
    | CriterionNotAllowed(criterion: string)

  /** A score is accepted when it is a number between -5 and 5 inclusive. */
  predicate ScoreInRange(f: NumberField) {
    f.Number? && -5 <= f.value <= 5
  }

  function ItemsOr<T>(f: ListField<T>): seq<T> {
    if f.Items? then f.items else []
  }

  // ---------------------------------------------------------------------------
  // Ratings

  /** `validate_rating_payload`: the worker name (when required), then the score, then the reviewer. */
  function ValidateRatingPayload(requireWorkerName: bool, workerName: string, reviewer: string, score: NumberField): (r: Option<ValidationError>)
    ensures r == None <==> (!requireWorkerName || |Strip(workerName)| >= 2) && ScoreInRange(score) && !IsBlank(reviewer)
    ensures r == Some(WorkerNameTooShort) <==> requireWorkerName && |Strip(workerName)| < 2
    ensures r == Some(ScoreOutOfRange) <==> (!requireWorkerName || |Strip(workerName)| >= 2) && !ScoreInRange(score)
    ensures r == Some(MissingReviewer) <==>
      (!requireWorkerName || |Strip(workerName)| >= 2) && ScoreInRange(score) && IsBlank(reviewer)
  {
    StripShape(reviewer);
    if requireWorkerName && |Strip(workerName)| < 2 then Some(WorkerNameTooShort)
    else if !ScoreInRange(score) then Some(ScoreOutOfRange)
    else if Strip(reviewer) == [] then Some(MissingReviewer)
    else None
  }

  // ---------------------------------------------------------------------------
  // History entries and profile notes

  /** The error one history entry raises, if any: a blank category first, then the score. */
  function HistoryEntryError(e: HistoryInput): (r: Option<ValidationError>)
    ensures r == None <==> !IsBlank(e.category) && ScoreInRange(e.score)
    ensures r.Some? ==> r == Some(HistoryCategoryMissing) || r == Some(HistoryScoreOutOfRange)
  {
    StripShape(e.category);
    if Strip(e.category) == [] then Some(HistoryCategoryMissing)
    else if !ScoreInRange(e.score) then Some(HistoryScoreOutOfRange)
    else None
  }

  /** `validate_history_entries`: the error of the first invalid entry. */
  function ValidateHistoryEntries(entries: seq<HistoryInput>): (r: Option<ValidationError>)
  {
    if entries == [] then None
    else if HistoryEntryError(entries[0]).Some? then HistoryEntryError(entries[0])
    else ValidateHistoryEntries(entries[1..])
  }

  predicate AllHistoryValid(entries: seq<HistoryInput>) {
    forall i :: 0 <= i < |entries| ==> HistoryEntryError(entries[i]) == None
  }

  /** Every entry before index `n` is valid. */
  predicate ValidBefore(entries: seq<HistoryInput>, n: int) {
    forall i :: 0 <= i < n && i < |entries| ==> HistoryEntryError(entries[i]) == None
  }

  /**
   * The entries are accepted exactly when each one is valid; otherwise the
   * error reported is that of the first invalid entry.
   */
  lemma {:induction false} ValidateHistoryEntriesCorrect(entries: seq<HistoryInput>)
    ensures AllHistoryValid(entries) ==> ValidateHistoryEntries(entries) == None
    ensures ValidateHistoryEntries(entries) == None ==> AllHistoryValid(entries)
    ensures ValidateHistoryEntries(entries).Some? ==>
      exists n :: 0 <= n < |entries| && ValidBefore(entries, n) &&
        ValidateHistoryEntries(entries) == HistoryEntryError(entries[n])
  {
    if entries != [] {
      var tail := entries[1..];
      ValidateHistoryEntriesCorrect(tail);
      if HistoryEntryError(entries[0]).Some? {
        assert ValidBefore(entries, 0);
      } else {
        TailValidity(entries);
        if ValidateHistoryEntries(tail).Some? {
          var n :| 0 <= n < |tail| && ValidBefore(tail, n) &&
            ValidateHistoryEntries(tail) == HistoryEntryError(tail[n]);
          assert entries[n + 1] == tail[n];
          assert ValidBefore(entries, n + 1) by {
            forall k | 0 < k < n + 1 ensures HistoryEntryError(entries[k]) == None {
              assert entries[k] == tail[k - 1];
            }
          }
        }
      }
    }
  }

  lemma TailValidity(entries: seq<HistoryInput>)
    requires entries != [] && HistoryEntryError(entries[0]) == None
    ensures AllHistoryValid(entries) <==> AllHistoryValid(entries[1..])
  {
    var tail := entries[1..];
    if AllHistoryValid(tail) {
      forall i | 0 < i < |entries| ensures HistoryEntryError(entries[i]) == None {
        assert entries[i] == tail[i - 1];
      }
    }
  }

  function NoteError(n: NoteInput): (r: Option<ValidationError>)
    ensures r == None <==> !IsBlank(n.note)
    ensures r.Some? ==> r == Some(NoteTextMissing)
  {
    StripShape(n.note);
    if Strip(n.note) == [] then Some(NoteTextMissing) else None
  }

  /** `validate_profile_notes`: every note needs text. */
  function ValidateProfileNotes(notes: seq<NoteInput>): (r: Option<ValidationError>)
  {
    if notes == [] then None
    else if NoteError(notes[0]).Some? then NoteError(notes[0])
    else ValidateProfileNotes(notes[1..])
  }

  predicate AllNotesValid(notes: seq<NoteInput>) {
    forall i :: 0 <= i < |notes| ==> !IsBlank(notes[i].note)
  }

  /** The notes are accepted exactly when none of them is blank; the only error is a missing text. */
  lemma {:induction false} ValidateProfileNotesCorrect(notes: seq<NoteInput>)
    ensures ValidateProfileNotes(notes) == None <==> AllNotesValid(notes)
    ensures ValidateProfileNotes(notes).Some? ==> ValidateProfileNotes(notes) == Some(NoteTextMissing)
  {
    if notes != [] {
      var tail := notes[1..];
      ValidateProfileNotesCorrect(tail);
      if NoteError(notes[0]).None? {
        assert AllNotesValid(notes) <==> AllNotesValid(tail) by {
          if AllNotesValid(tail) {
            forall i | 0 <= i < |notes| ensures !IsBlank(notes[i].note) {
              if i > 0 {
                assert notes[i] == tail[i - 1];
              }
            }
          }
        }
      }
    }
  }

  /**
   * `validate_profile_payload`: the name, then the shapes of the two lists,
   * then the notes, then the history entries.
   */
  function ValidateProfilePayload(name: string, history: ListField<HistoryInput>, notes: ListField<NoteInput>): (r: Option<ValidationError>)
  {
    if |Strip(name)| < 2 then Some(NameTooShort)
    else if history.NotAList? then Some(HistoryNotAList)
    else if notes.NotAList? then Some(NotesNotAList)
    else if ValidateProfileNotes(ItemsOr(notes)).Some? then ValidateProfileNotes(ItemsOr(notes))
    else ValidateHistoryEntries(ItemsOr(history))
  }

  /**
   * A profile payload is accepted exactly when the name has at least two
   * characters once trimmed, both lists are arrays or absent, every note has
   * text and every history entry is valid; a notes error wins over a history error.
   */
  lemma ValidateProfilePayloadCorrect(name: string, history: ListField<HistoryInput>, notes: ListField<NoteInput>)
    ensures ValidateProfilePayload(name, history, notes) == None <==>
      |Strip(name)| >= 2 && !history.NotAList? && !notes.NotAList? &&
      AllNotesValid(ItemsOr(notes)) && AllHistoryValid(ItemsOr(history))
    ensures |Strip(name)| >= 2 && !history.NotAList? && !notes.NotAList? && !AllNotesValid(ItemsOr(notes)) ==>
      ValidateProfilePayload(name, history, notes) == Some(NoteTextMissing)
  {
    ValidateProfileNotesCorrect(ItemsOr(notes));
    ValidateHistoryEntriesCorrect(ItemsOr(history));
  }

  // ---------------------------------------------------------------------------
  // Admin-defined values

  /** The lower-cased forms of a list of strings. */
  function LowerSet(xs: seq<string>): set<string> {
    set x | x in xs :: Lower(x)
  }

  /** A criterion is accepted when it is not blank and, if criteria are defined, is one of them up to case. */
  function CriterionError(entry: string, lookup: set<string>): (r: Option<ValidationError>)
    ensures r == None <==> !IsBlank(entry) && (lookup == {} || Lower(Strip(entry)) in lookup)
  {
    StripShape(entry);
    var criterion := Strip(entry);
    if criterion == [] then Some(CriterionMissing)
    else if lookup != {} && Lower(criterion) !in lookup then Some(CriterionNotAllowed(criterion))
    else None
  }

  function FirstCriterionError(entries: seq<string>, lookup: set<string>): (r: Option<ValidationError>)
    ensures r == None <==> forall i :: 0 <= i < |entries| ==> CriterionError(entries[i], lookup) == None
  {
    if entries == [] then None
    else if CriterionError(entries[0], lookup).Some? then CriterionError(entries[0], lookup)
    else
      var rest := FirstCriterionError(entries[1..], lookup);
      assert forall i :: 1 <= i < |entries| ==> entries[i] == entries[1..][i - 1];
      rest
  }

  /** Whether the category passes the job-type check: blank, no job types defined, or one of them up to case. */
  predicate CategoryAllowed(category: string, jobTypes: seq<string>) {
    var c := Strip(category);
    c == [] || jobTypes == [] || Lower(c) in LowerSet(jobTypes)
  }

  /**
   * `validate_allowed_rating_values`, given the two admin lists as loaded:
   * the category must be an admin-defined job type, and each selected
   * criterion must be present and admin-defined.
   */
  function ValidateAllowedRatingValues(category: string, selected: ListField<string>, jobTypes: seq<string>, criteria: seq<string>): (r: Option<ValidationError>)
  {
    if !CategoryAllowed(category, jobTypes) then Some(CategoryNotAllowed(jobTypes))
    else if selected.NotAList? then Some(CriteriaNotAList)
    else FirstCriterionError(ItemsOr(selected), LowerSet(criteria))
  }

  /**
   * The values are accepted exactly when the category is allowed, the
   * selected criteria are an array (or absent), and every criterion is
   * non-blank and, when criteria are defined, one of them up to case.
   */
  lemma AllowedValuesCorrect(category: string, selected: ListField<string>, jobTypes: seq<string>, criteria: seq<string>)
    ensures ValidateAllowedRatingValues(category, selected, jobTypes, criteria) == None <==>
      CategoryAllowed(category, jobTypes) && !selected.NotAList? &&
      forall i :: 0 <= i < |ItemsOr(selected)| ==>
        !IsBlank(ItemsOr(selected)[i]) &&
        (criteria == [] || Lower(Strip(ItemsOr(selected)[i])) in LowerSet(criteria))
    ensures ValidateAllowedRatingValues(category, selected, jobTypes, criteria) == Some(CategoryNotAllowed(jobTypes)) <==>
      !CategoryAllowed(category, jobTypes)
  {
    var lookup := LowerSet(criteria);
    assert lookup == {} <==> criteria == [] by {
      if criteria != [] {
        assert Lower(criteria[0]) in lookup;
      }
    }
    var r := ValidateAllowedRatingValues(category, selected, jobTypes, criteria);
    if r.Some? && r.value.CategoryNotAllowed? && CategoryAllowed(category, jobTypes) {
      FirstCriterionNeverCategory(ItemsOr(selected), lookup);
    }
  }

  /**
   * An error is that of the first criterion that fails: every criterion
   * before it is accepted.
   */
  lemma {:induction false} FirstCriterionErrorIsFirst(entries: seq<string>, lookup: set<string>)
    ensures var r := FirstCriterionError(entries, lookup);
      r.Some? ==>
        exists k :: 0 <= k < |entries| && r == CriterionError(entries[k], lookup) &&
                    forall j :: 0 <= j < k ==> CriterionError(entries[j], lookup) == None
  {
    var r := FirstCriterionError(entries, lookup);
    if r.Some? && CriterionError(entries[0], lookup) == None {
      var tail := entries[1..];
      FirstCriterionErrorIsFirst(tail, lookup);
      var k :| 0 <= k < |tail| && r == CriterionError(tail[k], lookup) &&
               forall j :: 0 <= j < k ==> CriterionError(tail[j], lookup) == None;
      assert entries[k + 1] == tail[k];
      forall j | 0 <= j < k + 1 ensures CriterionError(entries[j], lookup) == None {
        if j > 0 {
          assert entries[j] == tail[j - 1];
        }
      }
    }
  }

  lemma {:induction false} FirstCriterionNeverCategory(entries: seq<string>, lookup: set<string>)
    ensures var r := FirstCriterionError(entries, lookup); r.Some? ==> r == Some(CriterionMissing) || r.value.CriterionNotAllowed?
  {
    if entries != [] {
      FirstCriterionNeverCategory(entries[1..], lookup);
    }
  }

  // ---------------------------------------------------------------------------
  // Loading an admin list

  /** What the admin catalog holds under a key: no row, text that is not JSON, JSON that is not an array, or an array. */
  datatype StoredList = NoRow | Malformed | NotAnArray | Array(items: seq<string>)

  /** Each item with surrounding whitespace removed. */
  function Trimmed(items: seq<string>): seq<string> {
    seq(|items|, i requires 0 <= i < |items| => Strip(items[i]))
  }

  /**
   * The de-duplicated list of trimmed texts: blank texts dropped, and a text
   * dropped when one with the same lower-cased form came earlier. `seen`
   * holds the lower-cased texts already taken.
   */
  function Dedup(texts: seq<string>, seen: set<string>): seq<string> {
    if texts == [] then []
    else if texts[0] != [] && Lower(texts[0]) !in seen then [texts[0]] + Dedup(texts[1..], seen + {Lower(texts[0])})
    else Dedup(texts[1..], seen)
  }

  /** `load_admin_list`: the stored list de-duplicated, or the default when there is no usable array. */
  method LoadAdminList(stored: StoredList, default: seq<string>) returns (unique: seq<string>)
    ensures !stored.Array? ==> unique == default
    ensures stored.Array? ==> unique == Dedup(Trimmed(stored.items), {})
  {
    if !stored.Array? {
      return default;
    }
    var items := stored.items;
    ghost var texts := Trimmed(items);
    unique := [];
    var seen: set<string> := {};
    var i := 0;
    while i < |items|
      invariant 0 <= i <= |items|
      invariant unique + Dedup(texts[i..], seen) == Dedup(texts, {})
    {
      assert texts[i..][1..] == texts[i + 1..];
      var text := Strip(items[i]);
      var lower := Lower(text);
      if text != [] && lower !in seen {
        seen := seen + {lower};
        unique := unique + [text];
      }
      i := i + 1;
    }
    assert texts[i..] == [];
  }

  /** `a` is `b` with some elements left out, the rest kept in their order. */
  predicate SubsequenceOf(a: seq<string>, b: seq<string>)
    decreases |b|
  {
    if b == [] then a == []
    else SubsequenceOf(a, b[1..]) || (a != [] && a[0] == b[0] && SubsequenceOf(a[1..], b[1..]))
  }

  /** The kept texts appear in the order of their first occurrence in the input. */
  lemma {:induction false} DedupSubsequence(texts: seq<string>, seen: set<string>)
    ensures SubsequenceOf(Dedup(texts, seen), texts)
  {
    if texts != [] {
      if texts[0] != [] && Lower(texts[0]) !in seen {
        DedupSubsequence(texts[1..], seen + {Lower(texts[0])});
      } else {
        DedupSubsequence(texts[1..], seen);
      }
    }
  }

  /** No two kept texts are equal up to case, and none is equal up to case to an already-seen text. */
  lemma {:induction false} DedupDistinct(texts: seq<string>, seen: set<string>)
    ensures forall k :: 0 <= k < |Dedup(texts, seen)| ==> Lower(Dedup(texts, seen)[k]) !in seen
    ensures forall j, k :: 0 <= j < k < |Dedup(texts, seen)| ==> Lower(Dedup(texts, seen)[j]) != Lower(Dedup(texts, seen)[k])
  {
    if texts != [] {
      var text := texts[0];
      if text != [] && Lower(text) !in seen {
        var seen' := seen + {Lower(text)};
        DedupDistinct(texts[1..], seen');
        var rest := Dedup(texts[1..], seen');
        assert Dedup(texts, seen) == [text] + rest;
      } else {
        DedupDistinct(texts[1..], seen);
      }
    }
  }

  /**
   * `x` is text `j`, and no earlier text has the same lower-cased form.
   */
  predicate FirstAt(texts: seq<string>, j: int, x: string) {
    0 <= j < |texts| && x == texts[j] &&
    forall i :: 0 <= i < j ==> Lower(texts[i]) != Lower(x)
  }

  lemma FirstAtShift(texts: seq<string>, j: int, x: string)
    requires texts != [] && FirstAt(texts[1..], j, x)
    requires Lower(texts[0]) != Lower(x)
    ensures FirstAt(texts, j + 1, x)
  {
    var tail := texts[1..];
    assert texts[j + 1] == tail[j];
    forall i | 0 <= i < j + 1 ensures Lower(texts[i]) != Lower(x) {
      if i > 0 {
        assert texts[i] == tail[i - 1];
      }
    }
  }

  /** Every non-blank text not already seen is represented, up to case, in the result. */
  lemma {:induction false} DedupCovers(texts: seq<string>, seen: set<string>, j: nat)
    requires j < |texts| && texts[j] != [] && Lower(texts[j]) !in seen
    ensures exists k :: 0 <= k < |Dedup(texts, seen)| && Lower(Dedup(texts, seen)[k]) == Lower(texts[j])
  {
    var text := texts[0];
    var r := Dedup(texts, seen);
    if text != [] && Lower(text) !in seen {
      if j == 0 || Lower(texts[j]) == Lower(text) {
        assert Lower(r[0]) == Lower(texts[j]);
      } else {
        var seen' := seen + {Lower(text)};
        assert texts[1..][j - 1] == texts[j];
        DedupCovers(texts[1..], seen', j - 1);
        var k :| 0 <= k < |Dedup(texts[1..], seen')| && Lower(Dedup(texts[1..], seen')[k]) == Lower(texts[j]);
        assert r[k + 1] == Dedup(texts[1..], seen')[k];
      }
    } else {
      assert texts[1..][j - 1] == texts[j];
      DedupCovers(texts[1..], seen, j - 1);
    }
  }

  /**
   * Every kept text is non-blank and is the first text with its lower-cased
   * form: the first spelling wins.
   */
  lemma {:induction false} DedupKeepsFirst(texts: seq<string>, seen: set<string>)
    ensures forall k :: 0 <= k < |Dedup(texts, seen)| ==>
      Dedup(texts, seen)[k] != [] && exists j :: FirstAt(texts, j, Dedup(texts, seen)[k])
  {
    if texts != [] {
      var text := texts[0];
      var taken := text != [] && Lower(text) !in seen;
      var seen' := if taken then seen + {Lower(text)} else seen;
      DedupKeepsFirst(texts[1..], seen');
      DedupDistinct(texts[1..], seen');
      var rest := Dedup(texts[1..], seen');
      var r := Dedup(texts, seen);
      forall k | 0 <= k < |r|
        ensures r[k] != [] && exists j :: FirstAt(texts, j, r[k])
      {
        if taken && k == 0 {
          assert FirstAt(texts, 0, r[0]);
        } else {
          var m := if taken then k - 1 else k;
          assert r[k] == rest[m];
          var j :| FirstAt(texts[1..], j, rest[m]);
          assert Lower(rest[m]) !in seen';
          if text == [] {
            LowerKeepsShape(rest[m]);
          }
          FirstAtShift(texts, j, rest[m]);
        }
      }
      assert forall k :: 0 <= k < |r| ==> r[k] != [];
    }
  }

  /**
   * The loaded list, summed up: its texts are pairwise different up to case,
   * each is the trimmed form of the first item with that lower-cased form,
   * none is blank, and every non-blank item is represented up to case.
   */
  lemma AdminListProperties(items: seq<string>)
    ensures var r := Dedup(Trimmed(items), {});
      (forall j, k :: 0 <= j < k < |r| ==> Lower(r[j]) != Lower(r[k])) &&
      (forall k :: 0 <= k < |r| ==> r[k] != [] && exists j :: FirstAt(Trimmed(items), j, r[k])) &&
      (forall j :: 0 <= j < |items| && Strip(items[j]) != [] ==>
        exists k :: 0 <= k < |r| && Lower(r[k]) == Lower(Strip(items[j])))
  {
    var texts := Trimmed(items);
    DedupDistinct(texts, {});
    DedupKeepsFirst(texts, {});
    forall j | 0 <= j < |items| && Strip(items[j]) != []
      ensures exists k :: 0 <= k < |Dedup(texts, {})| && Lower(Dedup(texts, {})[k]) == Lower(Strip(items[j]))
    {
      DedupCovers(texts, {}, j);
    }
  }
}
