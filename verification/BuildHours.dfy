/** Shop hours: how long sessions are, who leads, and which typed-in sessions are let in. */
module BuildHours {
  import opened Wrappers
  import opened Rounding
  import opened Sorting
  import opened Stamps

  datatype HourLog = HourLog(id: string, userId: string, userName: Option<string>, clockIn: Stamp, clockOut: Stamp)
  datatype Member = Member(userId: string, name: Option<string>)

  // ----- Hours --------------------------------------------------------------------------------

  /** Hours of a record, rounded to hundredths and counted in them; an open one runs until now. */
  function Hundredths(r: HourLog, now: int): nat {
    var end := if r.clockOut.Absent? then At(now) else r.clockOut;
    if !r.clockIn.At? || !end.At? || end.ms <= r.clockIn.ms then 0
    else (end.ms - r.clockIn.ms + 18_000) / 36_000
  }

  /**
   * The rounding is to the nearest hundredth of an hour, an open session counting up to now; none for times that
   * cannot be read.
   */
  lemma NearestHundredth(r: HourLog, now: int)
    ensures !r.clockIn.At? || r.clockOut.Unreadable? ==> Hundredths(r, now) == 0
    ensures r.clockIn.At? && !r.clockOut.Unreadable? ==>
              var end := if r.clockOut.At? then r.clockOut.ms else now;
              Hundredths(r, now) == if end <= r.clockIn.ms then 0 else Round((end - r.clockIn.ms) as real / 36_000.0)
  {
    if r.clockIn.At? && !r.clockOut.Unreadable? {
      SpanToHundredth(r, now, if r.clockOut.At? then r.clockOut.ms else now);
    }
  }

  lemma SpanToHundredth(r: HourLog, now: int, end: int)
    requires r.clockIn.At? && !r.clockOut.Unreadable? && end == if r.clockOut.At? then r.clockOut.ms else now
    ensures end > r.clockIn.ms ==> Hundredths(r, now) == Round((end - r.clockIn.ms) as real / 36_000.0)
  {
    if end <= r.clockIn.ms { return; }
    var ms := end - r.clockIn.ms;
    var q := Hundredths(r, now);
    assert 36_000 * q <= ms + 18_000 < 36_000 * (q + 1);
    FloorIs(ms as real / 36_000.0 + 0.5, q);
  }

  function Total(records: seq<HourLog>, now: int): nat {
    if records == [] then 0
    else Total(records[..|records| - 1], now) + Hundredths(records[|records| - 1], now)
  }

  // ----- Who leads ----------------------------------------------------------------------------

  /** One line of the board. Hours are in hundredths. */
  datatype Row = Row(userId: string, name: Option<string>, total: nat, sessions: nat, openId: Option<string>,
                     goalPercent: Option<int>)

  function RecordsOf(records: seq<HourLog>, user: string): seq<HourLog> {
    if records == [] then []
    else
      var last := records[|records| - 1];
      RecordsOf(records[..|records| - 1], user) + if last.userId == user then [last] else []
  }

  /** The name given last for a member. */
  function MemberName(members: seq<Member>, user: string): Option<string> {
    if members == [] then None
    else if members[|members| - 1].userId == user then members[|members| - 1].name
    else MemberName(members[..|members| - 1], user)
  }

  function OpenId(list: seq<HourLog>): Option<string> {
    if list == [] then None else if list[0].clockOut.Absent? then Some(list[0].id) else OpenId(list[1..])
  }

  function RowFor(user: string, list: seq<HourLog>, members: seq<Member>, goal: real, now: int): Row {
    var known := MemberName(members, user);
    var total := Total(list, now);
    Row(user, if known.Some? then known else if list != [] then list[0].userName else None, total, |list|, OpenId(list),
        if goal > 0.0 then Some(var percent := Round(total as real / goal); if percent > 100 then 100 else percent) else None)
  }

  /** A row points at an open session exactly when the member has one, and at the first of them. */
  lemma {:induction false} OpenIdIsOpen(list: seq<HourLog>)
    ensures OpenId(list).Some? <==> OpenCount(list) > 0
    ensures OpenId(list).Some? ==>
              exists i :: 0 <= i < |list| && list[i].clockOut.Absent? && OpenId(list) == Some(list[i].id)
                && OpenCount(list[..i]) == 0
  {
    if list != [] && !list[0].clockOut.Absent? {
      OpenIdIsOpen(list[1..]);
      if OpenId(list[1..]).Some? {
        var i :| 0 <= i < |list| - 1 && list[1..][i].clockOut.Absent? && OpenId(list[1..]) == Some(list[1..][i].id)
                 && OpenCount(list[1..][..i]) == 0;
        assert list[i + 1] == list[1..][i];
        assert list[..i + 1][1..] == list[1..][..i] && list[..i + 1][0] == list[0];
      }
    }
  }

  function AddNew(ids: seq<string>, id: string): seq<string> {
    if id in ids then ids else ids + [id]
  }

  /** The ids in the order they first come up. */
  function FirstSeen(ids: seq<string>, more: seq<string>): seq<string>
    decreases |more|
  {
    if more == [] then ids else FirstSeen(AddNew(ids, more[0]), more[1..])
  }

  function Users(records: seq<HourLog>): (ids: seq<string>)
    ensures |ids| == |records| && forall i :: 0 <= i < |ids| ==> ids[i] == records[i].userId
  {
    seq(|records|, i requires 0 <= i < |records| => records[i].userId)
  }

  function Ids(members: seq<Member>): (ids: seq<string>)
    ensures |ids| == |members| && forall i :: 0 <= i < |ids| ==> ids[i] == members[i].userId
  {
    seq(|members|, i requires 0 <= i < |members| => members[i].userId)
  }

  type NameOrder = (string, string) -> bool

  /** More hours first, then by name. */
  function Leads(before: NameOrder): (Row, Row) -> bool {
    (a: Row, b: Row) => a.total > b.total || (a.total == b.total && before(a.name.GetOr(""), b.name.GetOr("")))
  }

  function Unsorted(records: seq<HourLog>, users: seq<string>, members: seq<Member>, goal: real, now: int): seq<Row> {
    seq(|users|, i requires 0 <= i < |users| => RowFor(users[i], RecordsOf(records, users[i]), members, goal, now))
  }

  function Board(records: seq<HourLog>, members: seq<Member>, goal: real, now: int, before: NameOrder): seq<Row> {
    var users := FirstSeen(FirstSeen([], Users(records)), Ids(members));
    Sort(Unsorted(records, users, members, goal, now), Leads(before))
  }

  /** What a Map holds under a key, nothing being no records. */
  function Under(byUser: map<string, seq<HourLog>>, user: string): seq<HourLog> {
    if user in byUser then byUser[user] else []
  }

  /** The Map is `keys`, in the order of insertion, with what is under each in `byUser`. */
  method GroupByUser(records: seq<HourLog>) returns (byUser: map<string, seq<HourLog>>, keys: seq<string>)
    ensures keys == FirstSeen([], Users(records))
    ensures Grouped(byUser, records)
  {
    hide RecordsOf, FirstSeen, Users;
    byUser, keys := map[], [];
    NoneYet(records);
    for i := 0 to |records|
      invariant forall u :: u in keys <==> u in byUser
      invariant Grouped(byUser, records[..i])
      invariant FirstSeen([], Users(records)) == FirstSeen(keys, Users(records)[i..])
    {
      var record := records[i];
      GroupedStep(byUser, records, i);
      NextSeen(keys, Users(records), i);
      var list := Under(byUser, record.userId);
      keys := AddNew(keys, record.userId);
      byUser := byUser[record.userId := list + [record]];
    }
    NoneLeft(keys);
    assert records[..|records|] == records && Users(records)[|records|..] == [];
  }

  ghost predicate Grouped(byUser: map<string, seq<HourLog>>, records: seq<HourLog>) {
    forall u :: Under(byUser, u) == RecordsOf(records, u)
  }

  lemma NoneYet(records: seq<HourLog>)
    ensures Grouped(map[], records[..0]) && Users(records)[0..] == Users(records)
  {
  }

  lemma NoneLeft(keys: seq<string>)
    ensures FirstSeen(keys, []) == keys
  {
  }

  /** A record filed under its user keeps every user's records together, in their order. */
  lemma GroupedStep(byUser: map<string, seq<HourLog>>, records: seq<HourLog>, i: nat)
    requires i < |records| && Grouped(byUser, records[..i])
    ensures var r := records[i]; Grouped(byUser[r.userId := Under(byUser, r.userId) + [r]], records[..i + 1])
  {
    var r, upTo := records[i], records[..i + 1];
    assert upTo[..i] == records[..i] && upTo[i] == r;
    var after := byUser[r.userId := Under(byUser, r.userId) + [r]];
    forall u ensures Under(after, u) == RecordsOf(upTo, u) {
      assert Under(byUser, u) == RecordsOf(records[..i], u);
    }
  }

  lemma NextSeen(ids: seq<string>, more: seq<string>, i: nat)
    requires i < |more|
    ensures FirstSeen(ids, more[i..]) == FirstSeen(AddNew(ids, more[i]), more[i + 1..])
  {
    assert more[i..][0] == more[i] && more[i..][1..] == more[i + 1..];
  }

  /** The Set of the keys and the members' ids. */
  method AddMembers(keys: seq<string>, members: seq<Member>) returns (userIds: seq<string>)
    ensures userIds == FirstSeen(keys, Ids(members))
  {
    userIds := keys;
    for i := 0 to |members|
      invariant FirstSeen(keys, Ids(members)) == FirstSeen(userIds, Ids(members)[i..])
    {
      NextSeen(userIds, Ids(members), i);
      userIds := AddNew(userIds, members[i].userId);
    }
  }

  method MemberLeaderboard(records: seq<HourLog>, members: seq<Member>, goal: real, now: int, before: NameOrder)
    returns (rows: seq<Row>)
    ensures rows == Board(records, members, goal, now, before)
  {
    hide RecordsOf, RowFor, Sort, FirstSeen, Ids, Users;
    var byUser, keys := GroupByUser(records);
    var userIds := AddMembers(keys, members);
    rows := [];
    for i := 0 to |userIds|
      invariant rows == Unsorted(records, userIds[..i], members, goal, now)
    {
      var list := Under(byUser, userIds[i]);
      rows := rows + [RowFor(userIds[i], list, members, goal, now)];
    }
    assert userIds[..|userIds|] == userIds;
    rows := Sort(rows, Leads(before));
  }

  datatype Summary = Summary(hereNow: nat, total: nat, activeMembers: nat, average: Option<int>)

  function OpenCount(records: seq<HourLog>): nat {
    if records == [] then 0 else (if records[0].clockOut.Absent? then 1 else 0) + OpenCount(records[1..])
  }

  function SummarizeHours(records: seq<HourLog>, now: int): Summary {
    var active := |set r | r in records :: r.userId|;
    var total := Total(records, now);
    Summary(OpenCount(records), total, active, if active > 0 then Some(Round(total as real / active as real)) else None)
  }

  /** The places of the open sessions. */
  function OpenPlaces(records: seq<HourLog>): set<nat> {
    set i: nat | i < |records| && records[i].clockOut.Absent?
  }

  lemma OpenCountAppend(records: seq<HourLog>, r: HourLog)
    ensures OpenCount(records + [r]) == OpenCount(records) + if r.clockOut.Absent? then 1 else 0
  {
    if records == [] {
      assert [] + [r] == [r] && [r][1..] == [];
    } else {
      assert (records + [r])[1..] == records[1..] + [r];
      OpenCountAppend(records[1..], r);
    }
  }

  lemma {:induction false} OpenCountIs(records: seq<HourLog>)
    ensures OpenCount(records) == |OpenPlaces(records)|
  {
    if records != [] {
      var n := |records| - 1;
      var most := records[..n];
      assert records == most + [records[n]];
      OpenCountAppend(most, records[n]);
      OpenCountIs(most);
      OneMorePlace(records);
      hide OpenPlaces, OpenCount;
    }
  }

  lemma OneMorePlace(records: seq<HourLog>)
    requires records != []
    ensures var n := |records| - 1;
            && OpenPlaces(records) == OpenPlaces(records[..n]) + (if records[n].clockOut.Absent? then {n} else {})
            && n !in OpenPlaces(records[..n])
  {
  }

  /**
   * Who is here now, and the average: the open sessions, and the total shared among those who have a record, to
   * the nearest hundredth.
   */
  lemma SummarySays(records: seq<HourLog>, now: int)
    ensures var s := SummarizeHours(records, now);
            && s.hereNow == |OpenPlaces(records)| && s.total == Total(records, now)
            && (s.average.Some? <==> records != [])
            && (records != [] ==>
                  && s.activeMembers > 0
                  && var share := s.total as real / s.activeMembers as real;
                     share - 0.5 < s.average.value as real <= share + 0.5)
  {
    hide Total, OpenPlaces, OpenCount;
    OpenCountIs(records);
    var users := set r | r in records :: r.userId;
    if records != [] {
      assert records[0] in records && records[0].userId in users;
      RoundIsNearest(Total(records, now) as real / |users| as real);
    } else {
      assert users == {};
    }
  }

  // ----- The board adds up --------------------------------------------------------------------

  predicate Distinct(ids: seq<string>) {
    forall i, j :: 0 <= i < j < |ids| ==> ids[i] != ids[j]
  }

  lemma {:induction false} FirstSeenIsDistinct(ids: seq<string>, more: seq<string>)
    requires Distinct(ids)
    ensures Distinct(FirstSeen(ids, more))
    ensures forall id :: id in FirstSeen(ids, more) <==> id in ids || id in more
    decreases |more|
  {
    if more != [] {
      FirstSeenIsDistinct(AddNew(ids, more[0]), more[1..]);
      assert forall id :: id in more <==> id == more[0] || id in more[1..];
    }
  }

  function Sum(rows: seq<Row>, f: Row -> nat): nat {
    if rows == [] then 0 else f(rows[0]) + Sum(rows[1..], f)
  }

  lemma {:induction false} SumInserted(row: Row, rows: seq<Row>, f: Row -> nat, below: (Row, Row) -> bool)
    ensures Sum(Insert(row, rows, below), f) == f(row) + Sum(rows, f)
  {
    if rows == [] || below(row, rows[0]) {
      assert ([row] + rows)[1..] == rows;
    } else {
      SumInserted(row, rows[1..], f, below);
      assert ([rows[0]] + Insert(row, rows[1..], below))[1..] == Insert(row, rows[1..], below);
    }
  }

  lemma {:induction false} SumSorted(rows: seq<Row>, f: Row -> nat, below: (Row, Row) -> bool)
    ensures Sum(Sort(rows, below), f) == Sum(rows, f)
  {
    if rows != [] {
      SumSorted(rows[1..], f, below);
      SumInserted(rows[0], Sort(rows[1..], below), f, below);
    }
  }

  function Hours(): Row -> nat { (r: Row) => r.total }
  function Sessions(): Row -> nat { (r: Row) => r.sessions }
  function RowsOf(user: string): Row -> nat { (r: Row) => if r.userId == user then 1 else 0 }

  lemma UnsortedTail(records: seq<HourLog>, users: seq<string>, members: seq<Member>, goal: real, now: int)
    requires users != []
    ensures Unsorted(records, users, members, goal, now)[1..] == Unsorted(records, users[1..], members, goal, now)
  {
  }

  /** With no records nobody has hours. */
  lemma {:induction false} NoRecordsNoHours(users: seq<string>, members: seq<Member>, goal: real, now: int)
    ensures Sum(Unsorted([], users, members, goal, now), Hours()) == 0
    ensures Sum(Unsorted([], users, members, goal, now), Sessions()) == 0
  {
    if users != [] {
      UnsortedTail([], users, members, goal, now);
      NoRecordsNoHours(users[1..], members, goal, now);
    }
  }

  /** One more record adds its hours to one row: that of its user, when that is on the list. */
  lemma {:induction false} OneRecordOneRow(records: seq<HourLog>, users: seq<string>, members: seq<Member>, goal: real, now: int)
    requires records != [] && Distinct(users)
    ensures var last, before := records[|records| - 1], records[..|records| - 1];
            var whole, rest := Unsorted(records, users, members, goal, now), Unsorted(before, users, members, goal, now);
            var listed := last.userId in users;
            && Sum(whole, Hours()) == Sum(rest, Hours()) + (if listed then Hundredths(last, now) else 0)
            && Sum(whole, Sessions()) == Sum(rest, Sessions()) + (if listed then 1 else 0)
  {
    if users != [] {
      UnsortedTail(records, users, members, goal, now);
      UnsortedTail(records[..|records| - 1], users, members, goal, now);
      OneRecordOneRow(records, users[1..], members, goal, now);
      assert users[0] !in users[1..];
      TotalOfOne(records, users[0], now);
    }
  }

  lemma TotalOfOne(records: seq<HourLog>, user: string, now: int)
    requires records != []
    ensures var last, rest := records[|records| - 1], RecordsOf(records[..|records| - 1], user);
            var own := last.userId == user;
            && Total(RecordsOf(records, user), now) == Total(rest, now) + (if own then Hundredths(last, now) else 0)
            && |RecordsOf(records, user)| == |rest| + (if own then 1 else 0)
  {
    var last, rest := records[|records| - 1], RecordsOf(records[..|records| - 1], user);
    var all := RecordsOf(records, user);
    if last.userId == user {
      assert all == rest + [last];
      assert all[|all| - 1] == last && all[..|all| - 1] == rest;
    } else {
      assert all == rest;
    }
  }

  lemma {:induction false} UsersPartitionRecords(records: seq<HourLog>, users: seq<string>, members: seq<Member>, goal: real, now: int)
    requires Distinct(users) && forall r :: r in records ==> r.userId in users
    ensures Sum(Unsorted(records, users, members, goal, now), Hours()) == Total(records, now)
    ensures Sum(Unsorted(records, users, members, goal, now), Sessions()) == |records|
    decreases |records|
  {
    if records == [] {
      NoRecordsNoHours(users, members, goal, now);
    } else {
      assert records[|records| - 1] in records;
      OneRecordOneRow(records, users, members, goal, now);
      UsersPartitionRecords(records[..|records| - 1], users, members, goal, now);
    }
  }

  lemma {:induction false} OneRowEach(records: seq<HourLog>, users: seq<string>, members: seq<Member>, goal: real, now: int, u: string)
    requires Distinct(users)
    ensures Sum(Unsorted(records, users, members, goal, now), RowsOf(u)) == if u in users then 1 else 0
  {
    if users != [] {
      UnsortedTail(records, users, members, goal, now);
      OneRowEach(records, users[1..], members, goal, now, u);
      assert users[0] !in users[1..];
    }
  }

  /**
   * The rows partition the records: everybody with a record or a membership has one row and nobody else
   * has any, sessions add up to the number of records, hours to the summary's total, each row holds its
   * user's own, and more hours come first, then the name that does.
   */
  lemma BoardAddsUp(records: seq<HourLog>, members: seq<Member>, goal: real, now: int, before: NameOrder)
    requires TotalPreorder(before)
    ensures var rows := Board(records, members, goal, now, before);
            && Sum(rows, Hours()) == SummarizeHours(records, now).total
            && Sum(rows, Sessions()) == |records|
            && (forall i, j :: 0 <= i < j < |rows| ==>
                  && rows[i].total >= rows[j].total
                  && (rows[i].total == rows[j].total ==> before(rows[i].name.GetOr(""), rows[j].name.GetOr(""))))
            && (forall u :: Sum(rows, RowsOf(u)) == if u in Users(records) || u in Ids(members) then 1 else 0)
            && (forall r :: r in rows ==>
                  r.total == Total(RecordsOf(records, r.userId), now) && r.sessions == |RecordsOf(records, r.userId)|)
  {
    hide Total, RecordsOf, MemberName, OpenId, Sort, FirstSeen, Sum;
    var seen := FirstSeen([], Users(records));
    var users := FirstSeen(seen, Ids(members));
    var rows := Unsorted(records, users, members, goal, now);
    FirstSeenIsDistinct([], Users(records));
    FirstSeenIsDistinct(seen, Ids(members));
    assert forall r :: r in records ==> r.userId in Users(records) by { RecordUsers(records); }
    UsersPartitionRecords(records, users, members, goal, now);
    SumSorted(rows, Hours(), Leads(before));
    SumSorted(rows, Sessions(), Leads(before));
    forall u ensures Sum(Sort(rows, Leads(before)), RowsOf(u)) == if u in users then 1 else 0 {
      OneRowEach(records, users, members, goal, now, u);
      SumSorted(rows, RowsOf(u), Leads(before));
    }
    LeadsIsAPreorder(before);
    SortSorts(rows, Leads(before));
    SameElements(Sort(rows, Leads(before)), rows);
  }

  /** The list names the one before it first names the other. */
  ghost predicate ComesFirst(all: seq<string>, u: string, v: string) {
    exists a :: 0 <= a <= |all| && u in all[..a] && v !in all[..a]
  }

  lemma DistinctComeInOrder(ids: seq<string>, p: nat, q: nat)
    requires Distinct(ids) && p < q < |ids|
    ensures ComesFirst(ids, ids[p], ids[q])
  {
    assert ids[..p + 1][p] == ids[p];
    assert ids[q] !in ids[..p + 1];
  }

  lemma AddedIsDistinct(ids: seq<string>, id: string)
    requires Distinct(ids)
    ensures Distinct(AddNew(ids, id))
  {
  }

  /** First seen are the ids in the order they first come up. */
  lemma {:induction false} FirstSeenOrder(ids: seq<string>, more: seq<string>, p: nat, q: nat)
    requires Distinct(ids) && p < q < |FirstSeen(ids, more)|
    ensures ComesFirst(ids + more, FirstSeen(ids, more)[p], FirstSeen(ids, more)[q])
    decreases |more|
  {
    hide ComesFirst, Distinct, FirstSeen, AddNew;
    OneMoreSeen(ids, more);
    if more == [] {
      DistinctComeInOrder(ids, p, q);
      assert ids + more == ids;
    } else {
      var next, rest := AddNew(ids, more[0]), more[1..];
      AddedIsDistinct(ids, more[0]);
      FirstSeenOrder(next, rest, p, q);
      assert more == [more[0]] + rest;
      if more[0] !in ids {
        assert next + rest == ids + more;
      } else {
        RepeatedId(ids, more[0], rest, FirstSeen(ids, more)[p], FirstSeen(ids, more)[q]);
      }
    }
  }

  lemma OneMoreSeen(ids: seq<string>, more: seq<string>)
    ensures more == [] ==> FirstSeen(ids, more) == ids
    ensures more != [] ==> FirstSeen(ids, more) == FirstSeen(AddNew(ids, more[0]), more[1..])
    ensures more != [] ==> AddNew(ids, more[0]) == if more[0] in ids then ids else ids + [more[0]]
  {
  }

  /** An id that came up before changes nobody's turn. */
  lemma RepeatedId(ids: seq<string>, again: string, more: seq<string>, u: string, v: string)
    requires again in ids && ComesFirst(ids + more, u, v)
    ensures ComesFirst(ids + ([again] + more), u, v)
  {
    var short, long := ids + more, ids + ([again] + more);
    var a :| 0 <= a <= |short| && u in short[..a] && v !in short[..a];
    if a <= |ids| {
      assert long[..a] == short[..a];
    } else {
      assert short[..a] == ids + more[..a - |ids|];
      assert long[..a + 1] == ids + ([again] + more[..a - |ids|]);
      assert u in long[..a + 1] && v !in long[..a + 1];
    }
  }

  lemma {:induction false} FirstSeenAppend(ids: seq<string>, a: seq<string>, b: seq<string>)
    ensures FirstSeen(FirstSeen(ids, a), b) == FirstSeen(ids, a + b)
    decreases |a|
  {
    if a == [] {
      assert a + b == b;
    } else {
      assert (a + b)[1..] == a[1..] + b;
      FirstSeenAppend(AddNew(ids, a[0]), a[1..], b);
    }
  }

  /**
   * Rows that hours and names cannot tell apart stand as their users first come up, among the records and then
   * the members.
   */
  lemma BoardKeepsTies(records: seq<HourLog>, members: seq<Member>, goal: real, now: int, before: NameOrder, i: nat, j: nat)
    requires TotalPreorder(before)
    requires var rows := Board(records, members, goal, now, before);
             && i < j < |rows| && rows[i].total == rows[j].total
             && before(rows[j].name.GetOr(""), rows[i].name.GetOr(""))
    ensures var rows := Board(records, members, goal, now, before);
            ComesFirst(Users(records) + Ids(members), rows[i].userId, rows[j].userId)
  {
    hide RowFor, RecordsOf, Sort, FirstSeen, ComesFirst;
    var rows := Board(records, members, goal, now, before);
    var all := Users(records) + Ids(members);
    var users := FirstSeen([], all);
    FirstSeenAppend([], Users(records), Ids(members));
    LeadsIsAPreorder(before);
    SortSorts(Unsorted(records, users, members, goal, now), Leads(before));
    var p, q := TiesKeepPlaces(Unsorted(records, users, members, goal, now), Leads(before), i, j);
    RowIsTheUsers(records, users, members, goal, now, p);
    RowIsTheUsers(records, users, members, goal, now, q);
    FirstSeenOrder([], all, p, q);
    assert [] + all == all;
  }

  lemma RowIsTheUsers(records: seq<HourLog>, users: seq<string>, members: seq<Member>, goal: real, now: int, p: nat)
    requires p < |users|
    ensures Unsorted(records, users, members, goal, now)[p].userId == users[p]
  {
  }

  /** No member of the list is this user. */
  predicate NotAmong(members: seq<Member>, user: string) {
    forall m :: m in members ==> m.userId != user
  }

  /** The last entry of the list for this user. */
  predicate LastEntry(members: seq<Member>, user: string, k: nat) {
    k < |members| && members[k].userId == user && NotAmong(members[k + 1..], user)
  }

  lemma {:induction false} NoEntryNoName(members: seq<Member>, user: string)
    requires NotAmong(members, user)
    ensures MemberName(members, user).None?
  {
    if members != [] {
      assert members[|members| - 1] in members;
      NoEntryNoName(members[..|members| - 1], user);
    }
  }

  lemma {:induction false} LastNameCounts(members: seq<Member>, user: string, k: nat)
    requires LastEntry(members, user, k)
    ensures MemberName(members, user) == members[k].name
  {
    var n := |members| - 1;
    if k < n {
      assert members[k + 1..][n - k - 1] == members[n];
      assert members[..n][k + 1..] == members[k + 1..][..n - k - 1];
      LastNameCounts(members[..n], user, k);
    }
  }

  /**
   * What else a row says: the name last given for the member, else the one on the user's first record; the
   * nearest whole percentage of the goal, 100 at most, and none without a goal.
   */
  lemma RowSays(user: string, list: seq<HourLog>, members: seq<Member>, goal: real, now: int)
    ensures var r, first := RowFor(user, list, members, goal, now), if list != [] then list[0].userName else None;
            && (forall k: nat :: LastEntry(members, user, k) ==>
                  r.name == if members[k].name.Some? then members[k].name else first)
            && (NotAmong(members, user) ==> r.name == first)
            && (r.goalPercent.Some? <==> goal > 0.0)
    ensures goal > 0.0 ==>
              var r := RowFor(user, list, members, goal, now);
              var exact := r.total as real / goal;
              && 0 <= r.goalPercent.value <= 100
              && (r.goalPercent.value == 100 <==> exact >= 99.5)
              && (r.goalPercent.value < 100 ==> exact - 0.5 < r.goalPercent.value as real <= exact + 0.5)
  {
    hide Total, MemberName, NotAmong;
    forall k: nat | LastEntry(members, user, k) ensures MemberName(members, user) == members[k].name {
      LastNameCounts(members, user, k);
    }
    if NotAmong(members, user) { NoEntryNoName(members, user); }
    if goal > 0.0 {
      var exact := Total(list, now) as real / goal;
      RatioIsPositive(Total(list, now), goal);
      NearestPercent(exact);
    }
  }

  lemma NearestPercent(exact: real)
    requires exact >= 0.0
    ensures var percent := Round(exact);
            0 <= percent && (percent >= 100 <==> exact >= 99.5) && exact - 0.5 < percent as real <= exact + 0.5
  {
    RoundIsNearest(exact);
    var percent := Round(exact);
    assert percent as real > -1.0;
    assert percent >= 100 <==> percent as real >= 100.0;
    assert percent < 100 ==> percent as real <= 99.0;
  }

  lemma RatioIsPositive(n: nat, goal: real)
    requires goal > 0.0
    ensures n as real / goal >= 0.0
  {
  }

  lemma RecordUsers(records: seq<HourLog>)
    ensures forall r :: r in records ==> r.userId in Users(records)
  {
    forall r | r in records ensures r.userId in Users(records) {
      var i :| 0 <= i < |records| && records[i] == r;
      assert Users(records)[i] in Users(records);
    }
  }

  lemma LeadsIsAPreorder(before: NameOrder)
    requires TotalPreorder(before)
    ensures TotalPreorder(Leads(before))
  {
    var leads := Leads(before);
    forall a, b ensures leads(a, b) || leads(b, a) {
      assert before(a.name.GetOr(""), b.name.GetOr("")) || before(b.name.GetOr(""), a.name.GetOr(""));
    }
    forall a, b, c | leads(a, b) && leads(b, c) ensures leads(a, c) {
      var x, y, z := a.name.GetOr(""), b.name.GetOr(""), c.name.GetOr("");
      assert before(x, y) && before(y, z) ==> before(x, z);
    }
  }
}
