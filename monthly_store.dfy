/**
 * The target and achievement controllers: one document per user holding that
 * user's monthly entries, created lazily by the getters, edited by
 * add-or-update and remove, and filled from spreadsheet rows by the bulk import.
 *
 * The two controllers run the same code over different collections; they differ
 * only in their messages and in how the "current user" getter treats a request
 * without a user. `Kind` selects between them.
 */
module MonthlyStore {
  import opened Common
  import opened Users
  import opened MonthlyRecords

  datatype Kind = Targets | Achievements

  function RequiredMessage(kind: Kind): string
  {
    match kind
    case Targets => "Email, month, year, and target are required"
    case Achievements => "Email, month, year, and achievement are required"
  }

  function FetchFailedMessage(kind: Kind): string
  {
    match kind
    case Targets => "Failed to fetch user targets"
    case Achievements => "Failed to fetch user achievements"
  }

  function SaveFailedMessage(kind: Kind): string
  {
    match kind
    case Targets => "Failed to add/update target"
    case Achievements => "Failed to add/update achievement"
  }

  function NoDocumentMessage(kind: Kind): string
  {
    match kind
    case Targets => "No targets found for this user"
    case Achievements => "No achievements found for this user"
  }

  function DataRequiredMessage(kind: Kind): string
  {
    match kind
    case Targets => "Targets data array is required"
    case Achievements => "Achievements data array is required"
  }

  /** The leading part of the schema-validation error a failed save reports. */
  function ValidationMessage(kind: Kind): string
  {
    match kind
    case Targets => "UserTarget validation failed"
    case Achievements => "UserAchievement validation failed"
  }

  // ---------------------------------------------------------------------------------------------
  // Bulk import, per row

  /** One element of `targetsData` / `achievementsData`. */
  datatype ImportRow = ImportRow(email: JsValue, september2025: JsValue, october2025: JsValue, november2025: JsValue)

  datatype ImportError = ImportError(email: JsValue, error: string)

  /** What one row contributes: an element of `results` or an element of `errors`. */
  datatype RowOutcome = Imported(email: JsValue) | Failed(failure: ImportError)

  datatype ImportReport = ImportReport(results: seq<JsValue>, errors: seq<ImportError>)

  /** The year every imported column belongs to. */
  const ImportYear: int := 2025

  /** The columns of a row in the order they are applied. */
  function MonthColumns(row: ImportRow): (cols: seq<(string, JsValue)>)
    ensures |cols| == 3
    ensures forall i, j :: 0 <= i < j < |cols| ==> cols[i].0 != cols[j].0
    ensures forall i :: 0 <= i < |cols| ==> cols[i].0 in MonthNames
  {
    [("September", row.september2025), ("October", row.october2025), ("November", row.november2025)]
  }

  /** A column value the import leaves alone: `undefined`, `null` or `''`. */
  predicate Skipped(v: JsValue)
  {
    v == Undefined || v == Null || v == Str("")
  }

  /** A value the schema accepts as a target or achievement. */
  predicate ValidValue(v: JsValue)
  {
    v.Num? && v.n >= 0
  }

  /** The month columns upserted in order into a list, skipped values left out. */
  function ApplyMonths(entries: seq<Entry>, cols: seq<(string, JsValue)>, now: int): seq<Entry>
  {
    if cols == [] then entries
    else
      var prior := ApplyMonths(entries, cols[..|cols| - 1], now);
      var (month, value) := cols[|cols| - 1];
      if Skipped(value) then prior else Upserted(prior, Str(month), Num(ImportYear), value, now)
  }

  /** A key no column names reads the same after the columns are applied. */
  lemma {:induction false} ApplyMonthsOtherKey(entries: seq<Entry>, cols: seq<(string, JsValue)>, now: int, month: JsValue, year: JsValue)
    requires forall i :: 0 <= i < |cols| ==> Str(cols[i].0) != month || year != Num(ImportYear)
    ensures Lookup(ApplyMonths(entries, cols, now), month, year) == Lookup(entries, month, year)
  {
    if cols != [] {
      var n := |cols| - 1;
      ApplyMonthsOtherKey(entries, cols[..n], now, month, year);
      if !Skipped(cols[n].1) {
        LookupUpsertedOther(ApplyMonths(entries, cols[..n], now), Str(cols[n].0), Num(ImportYear), cols[n].1, now, month, year);
      }
    }
  }

  /** Each column's month reads back the column's value, or its old value when the column is skipped. */
  lemma {:induction false} ApplyMonthsReadBack(entries: seq<Entry>, cols: seq<(string, JsValue)>, now: int, j: int)
    requires forall a, b :: 0 <= a < b < |cols| ==> cols[a].0 != cols[b].0
    requires 0 <= j < |cols|
    ensures Lookup(ApplyMonths(entries, cols, now), Str(cols[j].0), Num(ImportYear))
            == if Skipped(cols[j].1) then Lookup(entries, Str(cols[j].0), Num(ImportYear)) else Some(cols[j].1)
  {
    var n := |cols| - 1;
    var prior := ApplyMonths(entries, cols[..n], now);
    if j == n {
      ApplyMonthsOtherKey(entries, cols[..n], now, Str(cols[j].0), Num(ImportYear));
      if !Skipped(cols[n].1) {
        LookupUpserted(prior, Str(cols[n].0), Num(ImportYear), cols[n].1, now);
      }
    } else {
      ApplyMonthsReadBack(entries, cols[..n], now, j);
      if !Skipped(cols[n].1) {
        LookupUpsertedOther(prior, Str(cols[n].0), Num(ImportYear), cols[n].1, now, Str(cols[j].0), Num(ImportYear));
      }
    }
  }

  /** Applying columns keeps keys unique. */
  lemma {:induction false} ApplyMonthsUniqueKeys(entries: seq<Entry>, cols: seq<(string, JsValue)>, now: int)
    requires UniqueKeys(entries)
    ensures UniqueKeys(ApplyMonths(entries, cols, now))
  {
    if cols != [] {
      var n := |cols| - 1;
      ApplyMonthsUniqueKeys(entries, cols[..n], now);
      if !Skipped(cols[n].1) {
        UpsertKeepsUniqueKeys(ApplyMonths(entries, cols[..n], now), Str(cols[n].0), Num(ImportYear), cols[n].1, now);
      }
    }
  }

  /** A value read back from a list is the value of one of its entries. */
  lemma {:induction false} LookupFromEntry(entries: seq<Entry>, month: JsValue, year: JsValue)
    requires Lookup(entries, month, year).Some?
    ensures exists e :: e in entries && e.value == Lookup(entries, month, year).value
  {
    if !Matches(entries[0], month, year) {
      LookupFromEntry(entries[1..], month, year);
      var e :| e in entries[1..] && e.value == Lookup(entries, month, year).value;
      assert e in entries;
    } else {
      assert entries[0] in entries;
    }
  }

  /** Columns whose values are all valid keep a valid list valid. */
  lemma {:induction false} ApplyMonthsKeepsValid(entries: seq<Entry>, cols: seq<(string, JsValue)>, now: int)
    requires AllValid(entries)
    requires forall i :: 0 <= i < |cols| ==> cols[i].0 in MonthNames
    requires forall i :: 0 <= i < |cols| && !Skipped(cols[i].1) ==> ValidValue(cols[i].1)
    ensures AllValid(ApplyMonths(entries, cols, now))
  {
    if cols != [] {
      var n := |cols| - 1;
      ApplyMonthsKeepsValid(entries, cols[..n], now);
      if !Skipped(cols[n].1) {
        UpsertValidity(ApplyMonths(entries, cols[..n], now), Str(cols[n].0), Num(ImportYear), cols[n].1, now);
      }
    }
  }

  /** Starting from a valid list, the result is valid exactly when every column that is not skipped holds a valid value. */
  lemma ApplyMonthsValidity(entries: seq<Entry>, cols: seq<(string, JsValue)>, now: int)
    requires AllValid(entries)
    requires forall a, b :: 0 <= a < b < |cols| ==> cols[a].0 != cols[b].0
    requires forall i :: 0 <= i < |cols| ==> cols[i].0 in MonthNames
    ensures AllValid(ApplyMonths(entries, cols, now)) <==> forall i :: 0 <= i < |cols| && !Skipped(cols[i].1) ==> ValidValue(cols[i].1)
  {
    if forall i :: 0 <= i < |cols| && !Skipped(cols[i].1) ==> ValidValue(cols[i].1) {
      ApplyMonthsKeepsValid(entries, cols, now);
    } else {
      var i :| 0 <= i < |cols| && !Skipped(cols[i].1) && !ValidValue(cols[i].1);
      var after := ApplyMonths(entries, cols, now);
      ApplyMonthsReadBack(entries, cols, now, i);
      LookupFromEntry(after, Str(cols[i].0), Num(ImportYear));
    }
  }

  /**
   * One row of the bulk import against the documents as they stand: the outcome the row
   * contributes and the documents afterwards.
   */
  function ImportStep(kind: Kind, users: seq<User>, docs: map<UserId, Doc>, row: ImportRow, now: int)
    : (RowOutcome, map<UserId, Doc>)
  {
    if !Truthy(row.email) then (Failed(ImportError(Str("N/A"), "Email is required")), docs)
    else match FindByEmail(users, row.email)
      case None => (Failed(ImportError(row.email, "User not found")), docs)
      case Some(user) =>
        var doc := if user.id in docs then docs[user.id] else EmptyDoc(now);
        match Saved(doc.(entries := ApplyMonths(doc.entries, MonthColumns(row), now)), now)
        case None => (Failed(ImportError(row.email, ValidationMessage(kind))), docs)
        case Some(saved) => (Imported(row.email), docs[user.id := saved])
  }

  /**
   * What a row does: a row without an email or for an unknown user is reported and changes
   * nothing; a known user's row is imported exactly when every non-skipped column is a number
   * of at least 0, and then each column's month reads back that column's value (a skipped
   * column leaves its month as it was) while every other user's document stays as it was.
   */
  lemma ImportStepMeaning(kind: Kind, users: seq<User>, docs: map<UserId, Doc>, row: ImportRow, now: int)
    requires DocsValid(docs)
    ensures var (outcome, after) := ImportStep(kind, users, docs, row, now);
      && (!Truthy(row.email) ==> outcome == Failed(ImportError(Str("N/A"), "Email is required")) && after == docs)
      && (Truthy(row.email) && FindByEmail(users, row.email).None? ==>
            outcome == Failed(ImportError(row.email, "User not found")) && after == docs)
      && (Truthy(row.email) && FindByEmail(users, row.email).Some? ==>
            var id := FindByEmail(users, row.email).value.id;
            var before := if id in docs then docs[id].entries else [];
            var cols := MonthColumns(row);
            && (outcome.Imported? <==> forall i :: 0 <= i < 3 && !Skipped(cols[i].1) ==> ValidValue(cols[i].1))
            && (outcome.Imported? ==>
                  && outcome.email == row.email
                  && id in after && (forall u :: u in docs && u != id ==> u in after && after[u] == docs[u])
                  && forall i :: 0 <= i < 3 ==>
                       Lookup(after[id].entries, Str(cols[i].0), Num(ImportYear))
                       == if Skipped(cols[i].1) then Lookup(before, Str(cols[i].0), Num(ImportYear)) else Some(cols[i].1))
            && (outcome.Failed? ==> outcome == Failed(ImportError(row.email, ValidationMessage(kind))) && after == docs))
  {
    if Truthy(row.email) && FindByEmail(users, row.email).Some? {
      KnownUserStep(kind, users, docs, row, now, FindByEmail(users, row.email).value);
    }
  }

  /** The row of a known user, the last case of ImportStepMeaning. */
  lemma KnownUserStep(kind: Kind, users: seq<User>, docs: map<UserId, Doc>, row: ImportRow, now: int, user: User)
    requires DocsValid(docs)
    requires Truthy(row.email) && FindByEmail(users, row.email) == Some(user)
    ensures var (outcome, after) := ImportStep(kind, users, docs, row, now);
            var before := if user.id in docs then docs[user.id].entries else [];
            var cols := MonthColumns(row);
            && (outcome.Imported? <==> forall i :: 0 <= i < 3 && !Skipped(cols[i].1) ==> ValidValue(cols[i].1))
            && (outcome.Imported? ==>
                  && outcome.email == row.email
                  && user.id in after && (forall u :: u in docs && u != user.id ==> u in after && after[u] == docs[u])
                  && forall i :: 0 <= i < 3 ==>
                       Lookup(after[user.id].entries, Str(cols[i].0), Num(ImportYear))
                       == if Skipped(cols[i].1) then Lookup(before, Str(cols[i].0), Num(ImportYear)) else Some(cols[i].1))
            && (outcome.Failed? ==> outcome == Failed(ImportError(row.email, ValidationMessage(kind))) && after == docs)
  {
    var doc := if user.id in docs then docs[user.id] else EmptyDoc(now);
    ApplyMonthsValidity(doc.entries, MonthColumns(row), now);
    RowReadBack(doc.entries, row, now);
  }

  /** Every month column of a row reads back its value after the row is applied, or its old value when skipped. */
  lemma RowReadBack(entries: seq<Entry>, row: ImportRow, now: int)
    ensures var cols := MonthColumns(row);
            forall i :: 0 <= i < 3 ==>
              Lookup(ApplyMonths(entries, cols, now), Str(cols[i].0), Num(ImportYear))
              == if Skipped(cols[i].1) then Lookup(entries, Str(cols[i].0), Num(ImportYear)) else Some(cols[i].1)
  {
    var cols := MonthColumns(row);
    forall i | 0 <= i < 3
      ensures Lookup(ApplyMonths(entries, cols, now), Str(cols[i].0), Num(ImportYear))
              == if Skipped(cols[i].1) then Lookup(entries, Str(cols[i].0), Num(ImportYear)) else Some(cols[i].1)
    {
      ApplyMonthsReadBack(entries, cols, now, i);
    }
  }

  /** A row keeps every stored document valid with unique keys. */
  lemma ImportStepKeepsValid(kind: Kind, users: seq<User>, docs: map<UserId, Doc>, row: ImportRow, now: int)
    requires DocsValid(docs)
    ensures DocsValid(ImportStep(kind, users, docs, row, now).1)
  {
    if Truthy(row.email) && FindByEmail(users, row.email).Some? {
      var id := FindByEmail(users, row.email).value.id;
      var doc := if id in docs then docs[id] else EmptyDoc(now);
      ApplyMonthsUniqueKeys(doc.entries, MonthColumns(row), now);
    }
  }

  // ---------------------------------------------------------------------------------------------
  // Bulk import, all rows

  /** The rows processed in order, each against the documents the rows before it left. */
  function ImportAll(kind: Kind, users: seq<User>, docs: map<UserId, Doc>, rows: seq<ImportRow>, now: int)
    : (seq<RowOutcome>, map<UserId, Doc>)
  {
    if rows == [] then ([], docs)
    else
      var (outcomes, prior) := ImportAll(kind, users, docs, rows[..|rows| - 1], now);
      var (outcome, after) := ImportStep(kind, users, prior, rows[|rows| - 1], now);
      (outcomes + [outcome], after)
  }

  /** The `results` array: the emails of the imported rows, in order. */
  function Results(outcomes: seq<RowOutcome>): seq<JsValue>
  {
    if outcomes == [] then []
    else
      var last := outcomes[|outcomes| - 1];
      Results(outcomes[..|outcomes| - 1]) + (if last.Imported? then [last.email] else [])
  }

  /** The `errors` array: the failures, in order. */
  function Errors(outcomes: seq<RowOutcome>): seq<ImportError>
  {
    if outcomes == [] then []
    else
      var last := outcomes[|outcomes| - 1];
      Errors(outcomes[..|outcomes| - 1]) + (if last.Failed? then [last.failure] else [])
  }

  /** Every outcome lands in exactly one of the two arrays. */
  lemma {:induction false} ReportCoversOutcomes(outcomes: seq<RowOutcome>)
    ensures |Results(outcomes)| + |Errors(outcomes)| == |outcomes|
  {
    if outcomes != [] {
      ReportCoversOutcomes(outcomes[..|outcomes| - 1]);
    }
  }

  /** One outcome per row. */
  lemma {:induction false} ImportAllLength(kind: Kind, users: seq<User>, docs: map<UserId, Doc>, rows: seq<ImportRow>, now: int)
    ensures |ImportAll(kind, users, docs, rows, now).0| == |rows|
  {
    if rows != [] {
      ImportAllLength(kind, users, docs, rows[..|rows| - 1], now);
    }
  }

  /** Row i is judged against the documents rows 0 .. i - 1 left. */
  lemma {:induction false} ImportAllRow(kind: Kind, users: seq<User>, docs: map<UserId, Doc>, rows: seq<ImportRow>, now: int, i: int)
    requires 0 <= i < |rows|
    ensures |ImportAll(kind, users, docs, rows, now).0| == |rows|
    ensures ImportAll(kind, users, docs, rows, now).0[i]
            == ImportStep(kind, users, ImportAll(kind, users, docs, rows[..i], now).1, rows[i], now).0
  {
    var n := |rows| - 1;
    var prefix := rows[..n];
    ImportAllLength(kind, users, docs, prefix, now);
    ImportAllLength(kind, users, docs, rows, now);
    if i < n {
      ImportAllRow(kind, users, docs, prefix, now, i);
      assert prefix[..i] == rows[..i];
    }
  }

  /** One outcome per row, and row i is judged against the documents rows 0 .. i - 1 left. */
  lemma ImportAllOnePerRow(kind: Kind, users: seq<User>, docs: map<UserId, Doc>, rows: seq<ImportRow>, now: int)
    ensures |ImportAll(kind, users, docs, rows, now).0| == |rows|
    ensures forall i :: 0 <= i < |rows| ==>
              ImportAll(kind, users, docs, rows, now).0[i]
              == ImportStep(kind, users, ImportAll(kind, users, docs, rows[..i], now).1, rows[i], now).0
  {
    ImportAllLength(kind, users, docs, rows, now);
    forall i | 0 <= i < |rows|
      ensures ImportAll(kind, users, docs, rows, now).0[i]
              == ImportStep(kind, users, ImportAll(kind, users, docs, rows[..i], now).1, rows[i], now).0
    {
      ImportAllRow(kind, users, docs, rows, now, i);
    }
  }

  /** The import keeps every stored document valid with unique keys. */
  lemma {:induction false} ImportAllKeepsValid(kind: Kind, users: seq<User>, docs: map<UserId, Doc>, rows: seq<ImportRow>, now: int)
    requires DocsValid(docs)
    ensures DocsValid(ImportAll(kind, users, docs, rows, now).1)
  {
    if rows != [] {
      var n := |rows| - 1;
      ImportAllKeepsValid(kind, users, docs, rows[..n], now);
      ImportStepKeepsValid(kind, users, ImportAll(kind, users, docs, rows[..n], now).1, rows[n], now);
    }
  }

  // ---------------------------------------------------------------------------------------------
  // The collection

  /** One collection of per-user documents: `UserTarget` or `UserAchievement`. */
  class MonthlyStore {
    const kind: Kind
    var docs: map<UserId, Doc>

    predicate Valid()
      reads this
    {
      DocsValid(docs)
    }

    constructor(kind: Kind)
      ensures this.kind == kind && docs == map[] && Valid()
    {
      this.kind := kind;
      docs := map[];
    }

    /** Lazy creation: the user's document, created empty and saved when there is none. */
    method Ensure(id: UserId, now: int) returns (d: Doc)
      requires Valid()
      modifies this
      ensures Valid()
      ensures id in old(docs) ==> docs == old(docs) && d == old(docs)[id]
      ensures id !in old(docs) ==> docs == old(docs)[id := EmptyDoc(now)] && d == EmptyDoc(now)
    {
      if id in docs {
        d := docs[id];
      } else {
        d := EmptyDoc(now);
        docs := docs[id := d];
      }
    }

    /** getUserTargetsByEmail / getUserAchievementsByEmail. */
    method GetByEmail(users: seq<User>, email: JsValue, now: int) returns (r: Response<Doc>)
      requires Valid()
      modifies this
      ensures Valid()
      ensures !Truthy(email) ==> r == Failure(400, "Email is required") && docs == old(docs)
      ensures Truthy(email) && FindByEmail(users, email).None? ==> r == Failure(404, "User not found") && docs == old(docs)
      ensures Truthy(email) && FindByEmail(users, email).Some? ==>
                var id := FindByEmail(users, email).value.id;
                && (id in old(docs) ==> docs == old(docs) && r == Success(200, old(docs)[id]))
                && (id !in old(docs) ==> docs == old(docs)[id := EmptyDoc(now)] && r == Success(200, EmptyDoc(now)))
    {
      if !Truthy(email) {
        return Failure(400, "Email is required");
      }
      var user := FindByEmail(users, email);
      if user.None? {
        return Failure(404, "User not found");
      }
      var d := Ensure(user.value.id, now);
      return Success(200, d);
    }

    /**
     * getCurrentUserTargets / getCurrentUserAchievements. Without a user the target handler
     * fails reading `req.user._id` (500); the achievement handler answers 401 first.
     */
    method GetCurrent(user: Option<UserId>, now: int) returns (r: Response<Doc>)
      requires Valid()
      modifies this
      ensures Valid()
      ensures user.None? ==> docs == old(docs)
      ensures user.None? && kind == Targets ==> r == Failure(500, FetchFailedMessage(kind))
      ensures user.None? && kind == Achievements ==> r == Failure(401, "User not authenticated")
      ensures user.Some? ==>
                && (user.value in old(docs) ==> docs == old(docs) && r == Success(200, old(docs)[user.value]))
                && (user.value !in old(docs) ==> docs == old(docs)[user.value := EmptyDoc(now)] && r == Success(200, EmptyDoc(now)))
    {
      if user.None? {
        if kind == Achievements {
          return Failure(401, "User not authenticated");
        }
        return Failure(500, FetchFailedMessage(kind));
      }
      var d := Ensure(user.value, now);
      return Success(200, d);
    }

    /**
     * addOrUpdateTarget / addOrUpdateAchievement: upsert the (month, year) entry of the user's
     * document, creating the document if needed; nothing is stored when validation fails.
     */
    method AddOrUpdate(users: seq<User>, email: JsValue, month: JsValue, year: JsValue, value: JsValue, now: int)
      returns (r: Response<Doc>)
      requires Valid()
      modifies this
      ensures Valid()
      ensures r.Failure? ==> docs == old(docs)
      ensures !Truthy(email) || !Truthy(month) || !Truthy(year) || value == Undefined ==>
                r == Failure(400, RequiredMessage(kind))
      ensures Truthy(email) && Truthy(month) && Truthy(year) && value != Undefined ==>
                && (FindByEmail(users, email).None? ==> r == Failure(404, "User not found"))
                && (FindByEmail(users, email).Some? ==>
                      var id := FindByEmail(users, email).value.id;
                      var before := if id in old(docs) then old(docs)[id] else EmptyDoc(now);
                      && (r.Success? <==> ValidEntry(Entry(month, year, value, now)))
                      && (r.Failure? ==> r == Failure(500, SaveFailedMessage(kind)))
                      && (r.Success? ==>
                            && r.status == 201
                            && r.body == before.(entries := Upserted(before.entries, month, year, value, now), updatedAt := now)
                            && docs == old(docs)[id := r.body]))
    {
      if !Truthy(email) || !Truthy(month) || !Truthy(year) || value == Undefined {
        return Failure(400, RequiredMessage(kind));
      }
      var user := FindByEmail(users, email);
      if user.None? {
        return Failure(404, "User not found");
      }
      var id := user.value.id;
      var doc := if id in docs then docs[id] else EmptyDoc(now);
      var k := FindKey(doc.entries, month, year);
      if k != -1 {
        doc := doc.(entries := doc.entries[k := doc.entries[k].(value := value)]);
      } else {
        doc := doc.(entries := doc.entries + [Entry(month, year, value, now)]);
      }
      var before := if id in docs then docs[id] else EmptyDoc(now);
      UpsertValidity(before.entries, month, year, value, now);
      UpsertKeepsUniqueKeys(before.entries, month, year, value, now);
      var saved := Saved(doc, now);
      if saved.None? {
        return Failure(500, SaveFailedMessage(kind));
      }
      docs := docs[id := saved.value];
      return Success(201, saved.value);
    }

    /**
     * removeTarget / removeAchievement: drop every entry with the key; the user and the
     * user's document must exist.
     */
    method Remove(users: seq<User>, email: JsValue, month: JsValue, year: JsValue, now: int)
      returns (r: Response<Doc>)
      requires Valid()
      modifies this
      ensures Valid()
      ensures r.Failure? ==> docs == old(docs)
      ensures !Truthy(email) || !Truthy(month) || !Truthy(year) ==>
                r == Failure(400, "Email, month, and year are required")
      ensures Truthy(email) && Truthy(month) && Truthy(year) ==>
                && (FindByEmail(users, email).None? ==> r == Failure(404, "User not found"))
                && (FindByEmail(users, email).Some? ==>
                      var id := FindByEmail(users, email).value.id;
                      && (id !in old(docs) ==> r == Failure(404, NoDocumentMessage(kind)))
                      && (id in old(docs) ==>
                            && r == Success(200, old(docs)[id].(entries := WithoutKey(old(docs)[id].entries, month, year), updatedAt := now))
                            && docs == old(docs)[id := r.body]))
    {
      if !Truthy(email) || !Truthy(month) || !Truthy(year) {
        return Failure(400, "Email, month, and year are required");
      }
      var user := FindByEmail(users, email);
      if user.None? {
        return Failure(404, "User not found");
      }
      var id := user.value.id;
      if id !in docs {
        return Failure(404, NoDocumentMessage(kind));
      }
      var doc := docs[id];
      WithoutKeyKeepsInvariant(doc.entries, month, year);
      doc := doc.(entries := WithoutKey(doc.entries, month, year));
      var saved := Saved(doc, now).value;
      docs := docs[id := saved];
      return Success(200, saved);
    }

    /** The body of the per-row `try` block. */
    method ImportOne(users: seq<User>, row: ImportRow, now: int) returns (outcome: RowOutcome)
      requires Valid()
      modifies this
      ensures Valid()
      ensures (outcome, docs) == ImportStep(kind, users, old(docs), row, now)
    {
      if !Truthy(row.email) {
        return Failed(ImportError(Str("N/A"), "Email is required"));
      }
      var user := FindByEmail(users, row.email);
      if user.None? {
        return Failed(ImportError(row.email, "User not found"));
      }
      var id := user.value.id;
      var doc := if id in docs then docs[id] else EmptyDoc(now);
      var cols := MonthColumns(row);
      var entries := doc.entries;
      var j := 0;
      while j < |cols|
        invariant 0 <= j <= |cols|
        invariant entries == ApplyMonths(doc.entries, cols[..j], now)
      {
        assert cols[..j + 1][..j] == cols[..j];
        var month := cols[j].0;
        var value := cols[j].1;
        if !Skipped(value) {
          entries := Upserted(entries, Str(month), Num(ImportYear), value, now);
        }
        j := j + 1;
      }
      assert cols[..|cols|] == cols;
      assert entries == ApplyMonths(doc.entries, MonthColumns(row), now);
      var saved := Saved(doc.(entries := entries), now);
      if saved.None? {
        return Failed(ImportError(row.email, ValidationMessage(kind)));
      }
      ImportStepKeepsValid(kind, users, docs, row, now);
      docs := docs[id := saved.value];
      return Imported(row.email);
    }

    /**
     * bulkImportTargets / bulkImportAchievements: a missing or empty array is refused; otherwise
     * the rows are imported in order and each contributes to `results` or `errors`.
     */
    method BulkImport(users: seq<User>, rows: Option<seq<ImportRow>>, now: int) returns (r: Response<ImportReport>)
      requires Valid()
      modifies this
      ensures Valid()
      ensures rows.None? || rows.value == [] ==> r == Failure(400, DataRequiredMessage(kind)) && docs == old(docs)
      ensures rows.Some? && rows.value != [] ==>
                var (outcomes, after) := ImportAll(kind, users, old(docs), rows.value, now);
                && docs == after
                && r == Success(200, ImportReport(Results(outcomes), Errors(outcomes)))
                && |r.body.results| + |r.body.errors| == |rows.value|
    {
      if rows.None? || rows.value == [] {
        return Failure(400, DataRequiredMessage(kind));
      }
      var input := rows.value;
      var results: seq<JsValue> := [];
      var errors: seq<ImportError> := [];
      ghost var outcomes: seq<RowOutcome> := [];
      var i := 0;
      while i < |input|
        invariant 0 <= i <= |input|
        invariant Valid()
        invariant |outcomes| == i
        invariant (outcomes, docs) == ImportAll(kind, users, old(docs), input[..i], now)
        invariant results == Results(outcomes) && errors == Errors(outcomes)
      {
        assert input[..i + 1][..i] == input[..i];
        var outcome := ImportOne(users, input[i], now);
        match outcome {
          case Imported(email) => results := results + [email];
          case Failed(failure) => errors := errors + [failure];
        }
        outcomes := outcomes + [outcome];
        assert outcomes[..i] == outcomes[..|outcomes| - 1];
        i := i + 1;
      }
      assert input[..|input|] == input;
      ReportCoversOutcomes(outcomes);
      return Success(200, ImportReport(results, errors));
    }
  }
}
