/** The transcript store: `store_session` writes one finished interview
    record (or does nothing when no database reference exists), and the
    history page lists the stored records newest first, ordering them by
    their timestamp string with a missing timestamp read as "". */
module Store {
  import opened Wrappers
  import opened Text

  /** One saved interview. `timestamp` is optional because the history page
      reads it with `.get("timestamp", "")`. */
  datatype Record = Record(
    user: string,
    jobTitle: string,
    questions: seq<string>,
    answers: seq<string>,
    feedback: seq<Option<string>>,
    evaluation: string,
    model: string,
    timestamp: Option<string>)

  /** The `/interviews` node: the records in the order they were pushed. */
  type Db = seq<Record>

  /** `store_session`: no reference means no write; otherwise the record is
      pushed, unless the write fails (`writeOk` false), which only warns. */
  function StoreSession(db: Option<Db>, rec: Record, writeOk: bool): (r: Option<Db>)
    ensures db.None? ==> r.None?
    ensures db.Some? ==> r.Some? && |r.value| == |db.value| + (if writeOk then 1 else 0)
    ensures db.Some? ==> r.value[..|db.value|] == db.value
    ensures db.Some? && writeOk ==> r.value[|db.value|] == rec
  {
    match db
    case None => None
    case Some(records) => if writeOk then Some(records + [rec]) else Some(records)
  }

  // ---------------------------------------------------------------------
  // History ordering
  // ---------------------------------------------------------------------

  /** The sort key: the timestamp string, or "" when it is missing. */
  function Key(r: Record): string {
    r.timestamp.GetOr("")
  }

  /** Newest first: no record has a smaller key than one listed after it. */
  predicate NewestFirstOrdered(rs: seq<Record>) {
    forall i, j :: 0 <= i < j < |rs| ==> !StrLess(Key(rs[i]), Key(rs[j]))
  }

  /** Puts `x` in front of the first record whose key is not greater than
      its own, so that `x` stays ahead of records with an equal key. */
  function Insert(x: Record, rs: seq<Record>): (r: seq<Record>)
    ensures multiset(r) == multiset(rs) + multiset{x}
    ensures |r| == |rs| + 1
  {
    if rs == [] || !StrLess(Key(x), Key(rs[0])) then [x] + rs
    else
      assert rs == [rs[0]] + rs[1..];
      [rs[0]] + Insert(x, rs[1..])
  }

  /** Python's `sorted(records, key=Key, reverse=True)`, which is stable. */
  function NewestFirst(rs: seq<Record>): (r: seq<Record>)
    ensures multiset(r) == multiset(rs)
    ensures |r| == |rs|
  {
    if rs == [] then []
    else
      assert rs == [rs[0]] + rs[1..];
      Insert(rs[0], NewestFirst(rs[1..]))
  }

  lemma {:induction false} InsertOrdered(x: Record, rs: seq<Record>)
    requires NewestFirstOrdered(rs)
    ensures NewestFirstOrdered(Insert(x, rs))
  {
    if rs == [] || !StrLess(Key(x), Key(rs[0])) {
      var r := [x] + rs;
      forall i, j | 0 <= i < j < |r| ensures !StrLess(Key(r[i]), Key(r[j])) {
        if i == 0 && j > 1 {
          NotLessTransitive(Key(x), Key(rs[0]), Key(rs[j - 1]));
        }
      }
    } else {
      InsertOrdered(x, rs[1..]);
      var tail := Insert(x, rs[1..]);
      var r := [rs[0]] + tail;
      forall i, j | 0 <= i < j < |r| ensures !StrLess(Key(r[i]), Key(r[j])) {
        if i == 0 {
          assert r[j] in multiset(tail);
          assert r[j] == x || r[j] in multiset(rs[1..]);
          if r[j] == x {
            StrLessAsymmetric(Key(x), Key(rs[0]));
          } else {
            var m :| 0 <= m < |rs[1..]| && rs[1..][m] == r[j];
            assert rs[m + 1] == r[j];
          }
        }
      }
    }
  }

  /** The listing is ordered newest first. */
  lemma {:induction false} NewestFirstIsOrdered(rs: seq<Record>)
    ensures NewestFirstOrdered(NewestFirst(rs))
  {
    if rs != [] {
      NewestFirstIsOrdered(rs[1..]);
      InsertOrdered(rs[0], NewestFirst(rs[1..]));
    }
  }

  /** The records with key `k`, in order. */
  function WithKey(rs: seq<Record>, k: string): seq<Record> {
    if rs == [] then []
    else if Key(rs[0]) == k then [rs[0]] + WithKey(rs[1..], k)
    else WithKey(rs[1..], k)
  }

  lemma {:induction false} WithKeyInsert(x: Record, rs: seq<Record>, k: string)
    ensures WithKey(Insert(x, rs), k) == if Key(x) == k then [x] + WithKey(rs, k) else WithKey(rs, k)
  {
    if rs == [] || !StrLess(Key(x), Key(rs[0])) {
      assert ([x] + rs)[1..] == rs;
    } else {
      WithKeyInsert(x, rs[1..], k);
      assert ([rs[0]] + Insert(x, rs[1..]))[1..] == Insert(x, rs[1..]);
      if Key(x) == k {
        StrLessIrreflexive(k);
      }
    }
  }

  /** The sort is stable: records sharing a timestamp keep their stored
      order. */
  lemma {:induction false} NewestFirstStable(rs: seq<Record>, k: string)
    ensures WithKey(NewestFirst(rs), k) == WithKey(rs, k)
  {
    if rs != [] {
      NewestFirstStable(rs[1..], k);
      WithKeyInsert(rs[0], NewestFirst(rs[1..]), k);
    }
  }

  /** A record without a timestamp is listed after every record whose
      timestamp is a non-empty string. */
  lemma MissingTimestampLast(rs: seq<Record>, i: nat, j: nat)
    requires i < |NewestFirst(rs)| && j < |NewestFirst(rs)|
    requires NewestFirst(rs)[i].timestamp.None?
    requires NewestFirst(rs)[j].timestamp.Some? && NewestFirst(rs)[j].timestamp.value != ""
    ensures j < i
  {
    var r := NewestFirst(rs);
    NewestFirstIsOrdered(rs);
    EmptyIsLeast(Key(r[j]));
    assert StrLess(Key(r[i]), Key(r[j]));
  }

  /** What the history page shows. */
  datatype View = NotConnected | NoInterviews | Listing(entries: seq<Record>)

  /** `show_interview_history`: an error without a database, a notice for an
      empty one, otherwise every stored record, newest first. */
  function ShowHistory(db: Option<Db>): (v: View)
    ensures v.NotConnected? <==> db.None?
    ensures v.NoInterviews? <==> db == Some([])
    ensures v.Listing? ==> multiset(v.entries) == multiset(db.value) && NewestFirstOrdered(v.entries)
  {
    match db
    case None => NotConnected
    case Some(records) =>
      if records == [] then NoInterviews
      else
        NewestFirstIsOrdered(records);
        Listing(NewestFirst(records))
  }

  /** A record written by `store_session` shows up in the history listing. */
  lemma StoredRecordListed(db: Db, rec: Record)
    ensures var v := ShowHistory(StoreSession(Some(db), rec, true));
            v.Listing? && rec in v.entries
  {
    var v := ShowHistory(StoreSession(Some(db), rec, true));
    assert rec in multiset(db + [rec]);
    assert rec in multiset(v.entries);
  }
}
