/**
 * The per-user list of monthly entries shared by the target and the achievement
 * documents: `{ month, year, target }` (or `achievement`) entries, their schema
 * validity, the upsert-by-(month, year) and remove-by-(month, year) edits the
 * controllers apply to the list, and the pre-save hook.
 *
 * Keys are compared with `===`, which on the primitives of `JsValue` is `==`.
 */
module MonthlyRecords {
  import opened Common

  /** The month enum of the schema. */
  const MonthNames: seq<string> := ["September", "October", "November", "December", "January", "February",
                                    "March", "April", "May", "June", "July", "August"]

  /** One list entry; `value` is the `target` or `achievement` field. */
  datatype Entry = Entry(month: JsValue, year: JsValue, value: JsValue, createdAt: int)

  /** A document: the user's entry list and its two timestamps. */
  datatype Doc = Doc(entries: seq<Entry>, createdAt: int, updatedAt: int)

  /** Schema validity of an entry: month from the enum, a numeric year, a numeric value of at least 0. */
  predicate ValidEntry(e: Entry)
  {
    && e.month.Str? && e.month.s in MonthNames
    && e.year.Num?
    && e.value.Num? && e.value.n >= 0
  }

  predicate AllValid(entries: seq<Entry>)
  {
    forall e :: e in entries ==> ValidEntry(e)
  }

  /** The `findIndex` / `filter` test `t.month === month && t.year === year`. */
  predicate Matches(e: Entry, month: JsValue, year: JsValue)
  {
    e.month == month && e.year == year
  }

  /** No two entries share a (month, year) key. */
  predicate UniqueKeys(entries: seq<Entry>)
  {
    forall i, j :: 0 <= i < j < |entries| ==> !Matches(entries[j], entries[i].month, entries[i].year)
  }

  /** `findIndex`: the first matching index, or -1. */
  function FindKey(entries: seq<Entry>, month: JsValue, year: JsValue): (k: int)
    ensures -1 <= k < |entries|
    ensures k >= 0 ==> Matches(entries[k], month, year) && forall j :: 0 <= j < k ==> !Matches(entries[j], month, year)
    ensures k == -1 <==> forall j :: 0 <= j < |entries| ==> !Matches(entries[j], month, year)
  {
    if entries == [] then -1
    else if Matches(entries[0], month, year) then 0
    else
      var k := FindKey(entries[1..], month, year);
      if k == -1 then -1 else k + 1
  }

  /**
   * The upsert: when an entry with the key exists, the first one gets the new value and
   * nothing else changes; otherwise one new entry is appended at the end.
   */
  function Upserted(entries: seq<Entry>, month: JsValue, year: JsValue, value: JsValue, now: int): (r: seq<Entry>)
    ensures (exists k :: 0 <= k < |entries| && Matches(entries[k], month, year)) ==>
              && |r| == |entries|
              && exists k :: && 0 <= k < |entries| && Matches(entries[k], month, year)
                             && (forall j :: 0 <= j < k ==> !Matches(entries[j], month, year))
                             && r[k] == entries[k].(value := value)
                             && forall j :: 0 <= j < |entries| && j != k ==> r[j] == entries[j]
    ensures (forall k :: 0 <= k < |entries| ==> !Matches(entries[k], month, year)) ==>
              r == entries + [Entry(month, year, value, now)]
  {
    var k := FindKey(entries, month, year);
    if k == -1 then entries + [Entry(month, year, value, now)]
    else entries[k := entries[k].(value := value)]
  }

  /** The value stored under a key: that of the first matching entry. */
  function Lookup(entries: seq<Entry>, month: JsValue, year: JsValue): Option<JsValue>
  {
    if entries == [] then None
    else if Matches(entries[0], month, year) then Some(entries[0].value)
    else Lookup(entries[1..], month, year)
  }

  /** Upserting past a non-matching head leaves the head in place. */
  lemma UpsertedCons(entries: seq<Entry>, month: JsValue, year: JsValue, value: JsValue, now: int)
    requires entries != [] && !Matches(entries[0], month, year)
    ensures Upserted(entries, month, year, value, now) == [entries[0]] + Upserted(entries[1..], month, year, value, now)
  {
    var tail := entries[1..];
    var k := FindKey(tail, month, year);
    assert FindKey(entries, month, year) == if k == -1 then -1 else k + 1;
    if k == -1 {
      assert entries + [Entry(month, year, value, now)] == [entries[0]] + (tail + [Entry(month, year, value, now)]);
    } else {
      assert entries[k + 1 := entries[k + 1].(value := value)] == [entries[0]] + tail[k := tail[k].(value := value)];
    }
  }

  /** After an upsert the key reads back the new value. */
  lemma {:induction false} LookupUpserted(entries: seq<Entry>, month: JsValue, year: JsValue, value: JsValue, now: int)
    ensures Lookup(Upserted(entries, month, year, value, now), month, year) == Some(value)
  {
    if entries != [] && !Matches(entries[0], month, year) {
      UpsertedCons(entries, month, year, value, now);
      LookupUpserted(entries[1..], month, year, value, now);
    }
  }

  /** Upserting at a matching head rewrites the head's value and keeps the rest. */
  lemma UpsertedHead(entries: seq<Entry>, month: JsValue, year: JsValue, value: JsValue, now: int)
    requires entries != [] && Matches(entries[0], month, year)
    ensures Upserted(entries, month, year, value, now) == [entries[0].(value := value)] + entries[1..]
  {
    assert FindKey(entries, month, year) == 0;
    assert entries[0 := entries[0].(value := value)] == [entries[0].(value := value)] + entries[1..];
  }

  /** Replacing the head by an entry with the same key, which another key does not match, keeps that key's reading. */
  lemma LookupPastHead(entries: seq<Entry>, head: Entry, month: JsValue, year: JsValue)
    requires entries != [] && head.month == entries[0].month && head.year == entries[0].year
    requires !Matches(head, month, year)
    ensures Lookup([head] + entries[1..], month, year) == Lookup(entries, month, year)
  {
    assert ([head] + entries[1..])[1..] == entries[1..];
  }

  /** An upsert does not change what any other key reads. */
  lemma {:induction false} LookupUpsertedOther(entries: seq<Entry>, month: JsValue, year: JsValue, value: JsValue, now: int,
                                               otherMonth: JsValue, otherYear: JsValue)
    requires otherMonth != month || otherYear != year
    ensures Lookup(Upserted(entries, month, year, value, now), otherMonth, otherYear) == Lookup(entries, otherMonth, otherYear)
  {
    if entries == [] {
      assert Upserted(entries, month, year, value, now) == [Entry(month, year, value, now)];
    } else if Matches(entries[0], month, year) {
      UpsertedHead(entries, month, year, value, now);
      LookupPastHead(entries, entries[0].(value := value), otherMonth, otherYear);
    } else {
      UpsertedCons(entries, month, year, value, now);
      LookupUpsertedOther(entries[1..], month, year, value, now, otherMonth, otherYear);
    }
  }

  /** Upserts keep keys unique. */
  lemma UpsertKeepsUniqueKeys(entries: seq<Entry>, month: JsValue, year: JsValue, value: JsValue, now: int)
    requires UniqueKeys(entries)
    ensures UniqueKeys(Upserted(entries, month, year, value, now))
  {
    var r := Upserted(entries, month, year, value, now);
    if FindKey(entries, month, year) == -1 {
      forall i, j | 0 <= i < j < |r| ensures !Matches(r[j], r[i].month, r[i].year) {
        if j == |entries| {
          assert !Matches(entries[i], month, year);
        }
      }
    }
  }

  /** Given a valid list, an upsert yields a valid list exactly when the entry it writes is valid. */
  lemma UpsertValidity(entries: seq<Entry>, month: JsValue, year: JsValue, value: JsValue, now: int)
    requires AllValid(entries)
    ensures AllValid(Upserted(entries, month, year, value, now)) <==> ValidEntry(Entry(month, year, value, now))
  {
    var r := Upserted(entries, month, year, value, now);
    var k := FindKey(entries, month, year);
    if k == -1 {
      assert r[|entries|] == Entry(month, year, value, now);
      assert r[|entries|] in r;
    } else {
      assert r[k] == Entry(month, year, value, entries[k].createdAt);
      assert r[k] in r;
      assert entries[k] in entries;
      if ValidEntry(Entry(month, year, value, now)) {
        forall e | e in r ensures ValidEntry(e) {
          var i :| 0 <= i < |r| && r[i] == e;
          if i != k { assert entries[i] in entries; }
        }
      }
    }
  }

  /** The `filter` that keeps every entry whose key differs, in order. */
  function WithoutKey(entries: seq<Entry>, month: JsValue, year: JsValue): (r: seq<Entry>)
    ensures |r| <= |entries|
  {
    if entries == [] then []
    else if Matches(entries[0], month, year) then WithoutKey(entries[1..], month, year)
    else [entries[0]] + WithoutKey(entries[1..], month, year)
  }

  /** Exactly the non-matching entries survive a removal. */
  lemma {:induction false} WithoutKeyMembers(entries: seq<Entry>, month: JsValue, year: JsValue)
    ensures forall e :: e in WithoutKey(entries, month, year) <==> e in entries && !Matches(e, month, year)
  {
    if entries != [] {
      WithoutKeyMembers(entries[1..], month, year);
      assert entries == [entries[0]] + entries[1..];
    }
  }

  /** Removal distributes over concatenation: it is the order-preserving filter. */
  lemma {:induction false} WithoutKeyAppend(a: seq<Entry>, b: seq<Entry>, month: JsValue, year: JsValue)
    ensures WithoutKey(a + b, month, year) == WithoutKey(a, month, year) + WithoutKey(b, month, year)
  {
    if a != [] {
      assert (a + b)[1..] == a[1..] + b;
      WithoutKeyAppend(a[1..], b, month, year);
    } else {
      assert a + b == b;
    }
  }

  /** After a removal the key reads nothing and every other key reads as before. */
  lemma {:induction false} LookupWithoutKey(entries: seq<Entry>, month: JsValue, year: JsValue, otherMonth: JsValue, otherYear: JsValue)
    ensures Lookup(WithoutKey(entries, month, year), month, year) == None
    ensures otherMonth != month || otherYear != year ==>
              Lookup(WithoutKey(entries, month, year), otherMonth, otherYear) == Lookup(entries, otherMonth, otherYear)
  {
    if entries != [] {
      var rest := WithoutKey(entries[1..], month, year);
      LookupWithoutKey(entries[1..], month, year, otherMonth, otherYear);
      if Matches(entries[0], month, year) {
        assert WithoutKey(entries, month, year) == rest;
      } else {
        var r := [entries[0]] + rest;
        assert WithoutKey(entries, month, year) == r;
        assert r[0] == entries[0] && r[1..] == rest;
      }
    }
  }

  /** A suffix of a list with unique keys has unique keys. */
  lemma TailUniqueKeys(entries: seq<Entry>)
    requires entries != [] && UniqueKeys(entries)
    ensures UniqueKeys(entries[1..])
  {
    var tail := entries[1..];
    forall i, j | 0 <= i < j < |tail| ensures !Matches(tail[j], tail[i].month, tail[i].year) {
      assert tail[i] == entries[i + 1] && tail[j] == entries[j + 1];
    }
  }

  /** Putting an entry whose key the rest lacks in front of a list with unique keys keeps keys unique. */
  lemma ConsUniqueKeys(e: Entry, rest: seq<Entry>)
    requires UniqueKeys(rest)
    requires forall x :: x in rest ==> !Matches(x, e.month, e.year)
    ensures UniqueKeys([e] + rest)
  {
    var r := [e] + rest;
    forall i, j | 0 <= i < j < |r| ensures !Matches(r[j], r[i].month, r[i].year) {
      assert r[j] == rest[j - 1];
      if i == 0 {
        assert rest[j - 1] in rest;
      } else {
        assert r[i] == rest[i - 1];
      }
    }
  }

  /** Removal keeps a valid list with unique keys valid with unique keys. */
  lemma {:induction false} WithoutKeyKeepsInvariant(entries: seq<Entry>, month: JsValue, year: JsValue)
    requires AllValid(entries) && UniqueKeys(entries)
    ensures AllValid(WithoutKey(entries, month, year)) && UniqueKeys(WithoutKey(entries, month, year))
  {
    WithoutKeyMembers(entries, month, year);
    if entries != [] {
      var tail := entries[1..];
      assert forall e :: e in tail ==> e in entries;
      TailUniqueKeys(entries);
      WithoutKeyKeepsInvariant(tail, month, year);
      var rest := WithoutKey(tail, month, year);
      if !Matches(entries[0], month, year) {
        WithoutKeyMembers(tail, month, year);
        forall x | x in rest ensures !Matches(x, entries[0].month, entries[0].year) {
          var m :| 0 <= m < |tail| && tail[m] == x;
          assert entries[m + 1] == x;
        }
        ConsUniqueKeys(entries[0], rest);
      }
    }
  }

  /** Removing a key after upserting it is the same as removing it from the original list. */
  lemma {:induction false} RemoveAfterUpsert(entries: seq<Entry>, month: JsValue, year: JsValue, value: JsValue, now: int)
    ensures WithoutKey(Upserted(entries, month, year, value, now), month, year) == WithoutKey(entries, month, year)
  {
    var r := Upserted(entries, month, year, value, now);
    if entries == [] {
      assert r == [Entry(month, year, value, now)];
      assert r[1..] == [];
    } else if Matches(entries[0], month, year) {
      assert r[1..] == entries[1..];
    } else {
      UpsertedCons(entries, month, year, value, now);
      assert r[1..] == Upserted(entries[1..], month, year, value, now);
      RemoveAfterUpsert(entries[1..], month, year, value, now);
    }
  }

  /** The pre-save hook after schema validation: an invalid list is rejected, a valid one stored with `updatedAt = now`. */
  function Saved(d: Doc, now: int): (r: Option<Doc>)
    ensures r.Some? <==> AllValid(d.entries)
    ensures r.Some? ==> r.value.entries == d.entries && r.value.createdAt == d.createdAt && r.value.updatedAt == now
  {
    if AllValid(d.entries) then Some(d.(updatedAt := now)) else None
  }

  /** A fresh document with an empty list; both timestamps default to the creation time. */
  function EmptyDoc(now: int): (d: Doc)
    ensures d.entries == [] && d.createdAt == d.updatedAt == now
    ensures Saved(d, now) == Some(d)
  {
    Doc([], now, now)
  }

  /** Every stored document is valid and has unique keys. */
  predicate DocsValid<K>(docs: map<K, Doc>)
  {
    forall u :: u in docs ==> AllValid(docs[u].entries) && UniqueKeys(docs[u].entries)
  }
}
