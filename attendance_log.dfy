/**
 * The attendance log of index.js:164-173: username -> date (MM-DD-YYYY) ->
 * first time seen that day (HH:mm). `logToFile` updates the in-memory log
 * with JavaScript's `||`, so a user's day map is created when missing and a
 * time is kept only when one that is not the empty string is already there;
 * then the whole log is written back to the file.
 */
module AttendanceLog {

  /** date -> time of day */
  type Day = map<string, string>

  /** username -> that user's days */
  type Log = map<string, Day>

  /** `logFile[username] || {}` */
  function DayOf(log: Log, username: string): Day {
    if username in log then log[username] else map[]
  }

  /** True when a time is already stored for the date, in the sense of `||`:
      present and not the empty string. */
  predicate HasTime(day: Day, date: string) {
    date in day && day[date] != ""
  }

  /** `day[date] = day[date] || time` */
  function RecordDay(day: Day, date: string, time: string): Day {
    day[date := if HasTime(day, date) then day[date] else time]
  }

  /** The log after `logToFile(username, date, time)`. */
  function Record(log: Log, username: string, date: string, time: string): Log {
    log[username := RecordDay(DayOf(log, username), date, time)]
  }

  /**
   * What `logToFile` does to the log: the user and the date become defined,
   * every other user and every other date of the user keep their value, and
   * the date's time is `time` unless a non-empty time was already there, in
   * which case nothing changes at all.
   */
  lemma RecordEffect(log: Log, username: string, date: string, time: string)
    ensures var r := Record(log, username, date, time);
      && r.Keys == log.Keys + {username}
      && (forall u :: u in log && u != username ==> r[u] == log[u])
      && r[username].Keys == DayOf(log, username).Keys + {date}
      && (forall d :: d in DayOf(log, username) && d != date ==> r[username][d] == DayOf(log, username)[d])
      && (HasTime(DayOf(log, username), date) ==> r == log)
      && (!HasTime(DayOf(log, username), date) ==> r[username][date] == time)
  {
    if HasTime(DayOf(log, username), date) {
      assert RecordDay(DayOf(log, username), date, time) == log[username];
    }
  }

  /** A second observation on the same day keeps the first time. */
  lemma FirstObservationWins(log: Log, username: string, date: string, first: string, later: string)
    requires first != ""
    ensures Record(Record(log, username, date, first), username, date, later)
         == Record(log, username, date, first)
  {
    RecordEffect(log, username, date, first);
    RecordEffect(Record(log, username, date, first), username, date, later);
  }

  /** Repeating a call changes nothing, even for an empty time. */
  lemma RecordIdempotent(log: Log, username: string, date: string, time: string)
    ensures Record(Record(log, username, date, time), username, date, time)
         == Record(log, username, date, time)
  {
    var once := Record(log, username, date, time);
    RecordEffect(log, username, date, time);
    RecordEffect(once, username, date, time);
    if time == "" && !HasTime(DayOf(log, username), date) {
      assert once[username] == DayOf(once, username)[date := ""];
    }
  }

  /** An empty stored time is falsy for `||` and is overwritten. */
  lemma EmptyTimeReplaced(log: Log, username: string, date: string, time: string)
    requires username in log && date in log[username] && log[username][date] == ""
    ensures Record(log, username, date, time)[username][date] == time
  {
  }

  /** Records for different users touch disjoint parts of the log, so the
      order in which concurrent attempts settle does not matter. */
  lemma RecordCommutes(log: Log, u1: string, d1: string, t1: string, u2: string, d2: string, t2: string)
    requires u1 != u2
    ensures Record(Record(log, u1, d1, t1), u2, d2, t2) == Record(Record(log, u2, d2, t2), u1, d1, t1)
  {
  }

  /** The date and the time handed to one `logToFile` call. */
  datatype Stamp = Stamp(date: string, time: string)

  /** The log after each user u of `present` has been recorded once, with
      the stamp `stampOf(u)`. */
  function RecordAll(log: Log, present: set<string>, stampOf: string -> Stamp): (r: Log)
    ensures r.Keys == log.Keys + present
    ensures forall u :: u in log && u !in present ==> r[u] == log[u]
    ensures forall u :: u in present ==> r[u] == RecordDay(DayOf(log, u), stampOf(u).date, stampOf(u).time)
  {
    map u | u in log.Keys + present ::
      if u in present then RecordDay(DayOf(log, u), stampOf(u).date, stampOf(u).time) else log[u]
  }

  /** Recording one more user extends `RecordAll` by one `Record`. */
  lemma RecordAllStep(log: Log, present: set<string>, u: string, stampOf: string -> Stamp)
    requires u !in present
    ensures RecordAll(log, present + {u}, stampOf)
         == Record(RecordAll(log, present, stampOf), u, stampOf(u).date, stampOf(u).time)
  {
    var before := RecordAll(log, present, stampOf);
    var after := RecordAll(log, present + {u}, stampOf);
    var stepped := Record(before, u, stampOf(u).date, stampOf(u).time);
    assert DayOf(before, u) == DayOf(log, u);
    assert after.Keys == stepped.Keys;
    forall v | v in after.Keys ensures after[v] == stepped[v] {
      if v != u && v in present {
        assert after[v] == RecordDay(DayOf(log, v), stampOf(v).date, stampOf(v).time) == before[v];
      }
    }
  }

  /** Recording nobody leaves the log as it was. */
  lemma RecordAllNone(log: Log, stampOf: string -> Stamp)
    ensures RecordAll(log, {}, stampOf) == log
  {
  }

  /** The log after the users of `order` have been recorded one after the
      other, in that order. */
  function RecordSeq(log: Log, order: seq<string>, stampOf: string -> Stamp): Log {
    if order == [] then log
    else
      var last := order[|order| - 1];
      Record(RecordSeq(log, order[..|order| - 1], stampOf), last, stampOf(last).date, stampOf(last).time)
  }

  /** Recording one more user at the end is one more `Record`. */
  lemma RecordSeqSnoc(log: Log, order: seq<string>, u: string, stampOf: string -> Stamp)
    ensures RecordSeq(log, order + [u], stampOf)
         == Record(RecordSeq(log, order, stampOf), u, stampOf(u).date, stampOf(u).time)
  {
    assert (order + [u])[..|order|] == order;
  }

  /** Recording distinct users one by one gives the same log whatever the
      order: the order-free `RecordAll` of the users recorded. */
  lemma {:induction false} RecordSeqIsRecordAll(log: Log, order: seq<string>, stampOf: string -> Stamp)
    requires forall k, l :: 0 <= k < l < |order| ==> order[k] != order[l]
    ensures RecordSeq(log, order, stampOf) == RecordAll(log, (set u | u in order), stampOf)
  {
    if order == [] {
      RecordAllNone(log, stampOf);
    } else {
      var init, last := order[..|order| - 1], order[|order| - 1];
      RecordSeqIsRecordAll(log, init, stampOf);
      assert (set u | u in order) == (set u | u in init) + {last};
      RecordAllStep(log, (set u | u in init), last, stampOf);
    }
  }

  /**
   * The module-level `logFile` object together with the file it is saved
   * to. `saved` is what the last write put in the file (the parsed file at
   * start-up); `writes` counts the whole-file rewrites.
   */
  class LogFile {
    var entries: Log
    var saved: Log
    var writes: nat

    /** The log as read from the file at start-up; an empty file reads as `{}`. */
    constructor (initial: Log)
      ensures entries == initial && saved == initial && writes == 0
    {
      entries, saved, writes := initial, initial, 0;
    }

    /** `logToFile(username, date, time)`: update in place, then rewrite the file. */
    method LogToFile(username: string, date: string, time: string)
      modifies this
      ensures entries == Record(old(entries), username, date, time)
      ensures saved == entries
      ensures writes == old(writes) + 1
    {
      var day := DayOf(entries, username);
      entries := entries[username := day];
      day := entries[username];
      entries := entries[username := day[date := if HasTime(day, date) then day[date] else time]];
      saved := entries;
      writes := writes + 1;
    }
  }
}
