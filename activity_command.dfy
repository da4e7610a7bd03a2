/**
 * The `activity` chat command: reads every admin's activity over the last two
 * weeks and the admins on leave (LOA), and answers with a fixed-width table
 * split over as many messages as needed.
 *
 * The database and the chat client are not modelled: the two query results
 * come in as values (None when the query raised an SQL error), and the
 * messages the command sends come out as a sequence of strings.
 */
module ActivityCommand {

  import opened Wrappers
  import opened StringUtils
  import opened Activities
  import Decimal
  import Pager
  import opened Sequences

  /** Ranks listed with an "(Exempt)" note and never marked inactive. */
  const ExemptRanks: seq<string> := [
    "Host", "Council Member", "RetCoder", "Tribunal",
    "Retired Admin", "Senior Coder", "Head Developer",
    "Maintainer", "Admin Observer", "#Forum Mod", "Bot",
    "Community Manager", "Retmin-Maintainerino"
  ]

  /** Whether a rank is one of the exempt ranks. */
  predicate Exempt(rank: string) {
    rank in ExemptRanks
  }

  /** Ranks left out of the report altogether. */
  const IgnoreRanks: seq<string> := ["Maintainer", "Bot"]

  /** The single reply sent when a query fails. */
  const DatabaseError: string := "Unable to reach the database, try again later"

  /** Activity of at least 12 minutes (120 tenths) earns the '+' marker. */
  const ActiveTenths: int := 120

  // ---------------------------------------------------------------------------
  // Reading the activity rows

  /** The rows the report keeps: those whose rank is not ignored, in query order. */
  function Kept(rows: seq<Activity>): (kept: seq<Activity>)
    ensures forall a :: a in kept ==> a.rank !in IgnoreRanks
    ensures |kept| <= |rows|
  {
    if rows == [] then []
    else
      var last := rows[|rows| - 1];
      Kept(rows[..|rows| - 1]) + (if last.rank in IgnoreRanks then [] else [last])
  }

  /** Each row is kept as often as it occurs in the query, unless its rank is ignored. */
  lemma {:induction false} KeptCounts(rows: seq<Activity>, a: Activity)
    ensures multiset(Kept(rows))[a] == if a.rank in IgnoreRanks then 0 else multiset(rows)[a]
  {
    if rows != [] {
      var init := rows[..|rows| - 1];
      assert rows == init + [rows[|rows| - 1]];
      KeptCounts(init, a);
    }
  }

  lemma {:induction false} KeptAppend(xs: seq<Activity>, ys: seq<Activity>)
    ensures Kept(xs + ys) == Kept(xs) + Kept(ys)
  {
    if ys == [] {
      assert xs + ys == xs;
    } else {
      var init := ys[..|ys| - 1];
      assert xs + ys == (xs + init) + [ys[|ys| - 1]];
      assert (xs + ys)[..|xs + ys| - 1] == xs + init;
      KeptAppend(xs, init);
    }
  }

  function Ckeys(data: seq<Activity>): (names: seq<string>)
    ensures |names| == |data| && forall i :: 0 <= i < |data| ==> names[i] == data[i].ckey
  {
    seq(|data|, i requires 0 <= i < |data| => data[i].ckey)
  }

  function Ranks(data: seq<Activity>): (names: seq<string>)
    ensures |names| == |data| && forall i :: 0 <= i < |data| ==> names[i] == data[i].rank
  {
    seq(|data|, i requires 0 <= i < |data| => data[i].rank)
  }

  /** A column's width: the longest name, but never less than `floor`. */
  function Widest(floor: nat, names: seq<string>): nat {
    if names == [] then floor else Max(Widest(floor, names[..|names| - 1]), |names[|names| - 1]|)
  }

  /** Widest is the maximum of the floor and the name lengths. */
  lemma {:induction false} WidestIsMax(floor: nat, names: seq<string>)
    ensures Widest(floor, names) >= floor
    ensures forall i :: 0 <= i < |names| ==> |names[i]| <= Widest(floor, names)
    ensures Widest(floor, names) == floor || exists i :: 0 <= i < |names| && |names[i]| == Widest(floor, names)
  {
    if names != [] {
      var n := |names| - 1;
      WidestIsMax(floor, names[..n]);
      assert forall i :: 0 <= i < n ==> names[..n][i] == names[i];
    }
  }

  /** Kept over one more row. */
  lemma KeptStep(rows: seq<Activity>, i: nat)
    requires i < |rows|
    ensures Kept(rows[..i + 1]) == Kept(rows[..i]) + (if rows[i].rank in IgnoreRanks then [] else [rows[i]])
  {
    assert rows[..i + 1][..i] == rows[..i];
  }

  /** The column widths after one more kept row. */
  lemma WidthsStep(data: seq<Activity>, row: Activity)
    ensures Widest(8, Ckeys(data + [row])) == Max(Widest(8, Ckeys(data)), |row.ckey|)
    ensures Widest(4, Ranks(data + [row])) == Max(Widest(4, Ranks(data)), |row.rank|)
  {
    assert Ckeys(data + [row])[..|data|] == Ckeys(data);
    assert Ranks(data + [row])[..|data|] == Ranks(data);
  }

  /** The widths measured over the kept rows cover each of them and are reached by one. */
  lemma WidthsCover(data: seq<Activity>)
    ensures Widest(8, Ckeys(data)) >= 8 && Widest(4, Ranks(data)) >= 4
    ensures forall a :: a in data ==> |a.ckey| <= Widest(8, Ckeys(data)) && |a.rank| <= Widest(4, Ranks(data))
    ensures Widest(8, Ckeys(data)) == 8 || exists a :: a in data && |a.ckey| == Widest(8, Ckeys(data))
    ensures Widest(4, Ranks(data)) == 4 || exists a :: a in data && |a.rank| == Widest(4, Ranks(data))
  {
    WidestIsMax(8, Ckeys(data));
    WidestIsMax(4, Ranks(data));
    forall a | a in data ensures |a.ckey| <= Widest(8, Ckeys(data)) && |a.rank| <= Widest(4, Ranks(data)) {
      var i :| 0 <= i < |data| && data[i] == a;
      assert Ckeys(data)[i] == a.ckey && Ranks(data)[i] == a.rank;
    }
    if Widest(8, Ckeys(data)) != 8 {
      var i :| 0 <= i < |data| && |Ckeys(data)[i]| == Widest(8, Ckeys(data));
      assert data[i] in data;
    }
    if Widest(4, Ranks(data)) != 4 {
      var i :| 0 <= i < |data| && |Ranks(data)[i]| == Widest(4, Ranks(data));
      assert data[i] in data;
    }
  }

  /**
   * The loop over the activity query: drops ignored ranks and measures the
   * name and rank columns, starting from widths 8 and 4.
   */
  method CollectActivity(rows: seq<Activity>) returns (activityData: seq<Activity>, adminLen: int, rankLen: int)
    ensures activityData == Kept(rows)
    ensures adminLen == Widest(8, Ckeys(activityData)) && rankLen == Widest(4, Ranks(activityData))
    ensures adminLen >= 8 && rankLen >= 4
    ensures forall a :: a in activityData ==> |a.ckey| <= adminLen && |a.rank| <= rankLen
    ensures adminLen == 8 || exists a :: a in activityData && |a.ckey| == adminLen
    ensures rankLen == 4 || exists a :: a in activityData && |a.rank| == rankLen
  {
    activityData := [];
    adminLen, rankLen := 8, 4;
    var i := 0;
    while i < |rows|
      invariant 0 <= i <= |rows|
      invariant activityData == Kept(rows[..i])
      invariant adminLen == Widest(8, Ckeys(activityData))
      invariant rankLen == Widest(4, Ranks(activityData))
    {
      var row := rows[i];
      KeptStep(rows, i);
      if row.rank !in IgnoreRanks {
        WidthsStep(activityData, row);
        activityData := activityData + [row];
        if |row.ckey| > adminLen {
          adminLen := |row.ckey|;
        }
        if |row.rank| > rankLen {
          rankLen := |row.rank|;
        }
      }
      i := i + 1;
    }
    assert rows[..i] == rows;
    WidthsCover(activityData);
  }

  // ---------------------------------------------------------------------------
  // Leave of absence

  /** The ckeys on leave, each name normalised by CkeyIze. */
  function LoaSet(names: seq<string>): (loa: set<string>)
    ensures forall c :: c in loa ==> IsCkey(c)
    ensures forall n :: n in names ==> CkeyIze(n) in loa
  {
    set n | n in names :: CkeyIze(n)
  }

  /** The loop over the LOA query. */
  method BuildLoaSet(names: seq<string>) returns (loaAdmins: set<string>)
    ensures loaAdmins == LoaSet(names)
    ensures forall c :: c in loaAdmins ==> IsCkey(c)
  {
    loaAdmins := {};
    var i := 0;
    while i < |names|
      invariant 0 <= i <= |names|
      invariant loaAdmins == LoaSet(names[..i])
    {
      assert names[..i + 1] == names[..i] + [names[i]];
      loaAdmins := loaAdmins + {CkeyIze(names[i])};
      i := i + 1;
    }
    assert names[..i] == names;
  }

  /**
   * The report looks up the admin's ckey as the query returned it, so a ckey
   * that is not already in canonical form is never found on leave.
   */
  lemma OnLeaveOnlyIfCanonical(names: seq<string>, ckey: string)
    requires !IsCkey(ckey)
    ensures ckey !in LoaSet(names)
  {
  }

  // ---------------------------------------------------------------------------
  // Rendering one row

  /** '+' for active admins, ' ' for inactive ones on leave or exempt, '-' for the rest. */
  function Marker(activity: int, loa: bool, exempt: bool): (m: char)
    ensures m == '+' <==> activity >= ActiveTenths
    ensures m == ' ' <==> activity < ActiveTenths && (loa || exempt)
    ensures m == '-' <==> activity < ActiveTenths && !loa && !exempt
  {
    if activity >= ActiveTenths then '+' else if loa || exempt then ' ' else '-'
  }

  const LoaNote: string := "(LOA)"
  const ExemptNote: string := "(Exempt)"

  /** The note at the end of a row; leave wins over exemption. */
  function Annotation(loa: bool, exempt: bool): string {
    if loa then LoaNote else if exempt then ExemptNote else ""
  }

  predicate EndsWith(s: string, suffix: string) {
    |suffix| <= |s| && s[|s| - |suffix|..] == suffix
  }

  /** One table row, newline included: marker, ckey, rank, activity, note. */
  function FormatLine(a: Activity, adminLen: int, rankLen: int, loa: bool, exempt: bool): string {
    [Marker(a.activity, loa, exempt)] + " "
    + (PadStart(a.ckey, adminLen, ' ') + " " + PadStart(a.rank, rankLen, ' ') + " "
       + PadStart(Decimal.FormatTenths(a.activity), 8, ' '))
    + (" " + Annotation(loa, exempt) + "\n")
  }

  /**
   * A row starts with '+' exactly when the admin reached 12 minutes, with a
   * blank exactly when an admin short of that is on leave or exempt, and with
   * '-' otherwise; then a space. It ends with " (LOA)", " (Exempt)" or a
   * bare space, then the newline, and its length is fixed by the padded
   * fields.
   */
  lemma RowMarkers(a: Activity, adminLen: int, rankLen: int, loa: bool, exempt: bool)
    ensures var line := FormatLine(a, adminLen, rankLen, loa, exempt);
      && |line| == 2 + Max(adminLen, |a.ckey|) + 1 + Max(rankLen, |a.rank|) + 1
                   + Max(8, |Decimal.FormatTenths(a.activity)|) + 1 + |Annotation(loa, exempt)| + 1
      && (line[0] == '+' <==> a.activity >= ActiveTenths)
      && (line[0] == ' ' <==> a.activity < ActiveTenths && (loa || exempt))
      && (line[0] == '-' <==> a.activity < ActiveTenths && !loa && !exempt)
      && line[1] == ' '
      && (loa ==> EndsWith(line, " " + LoaNote + "\n"))
      && (!loa && exempt ==> EndsWith(line, " " + ExemptNote + "\n"))
      && (!loa && !exempt ==> EndsWith(line, " \n"))
  {
    var front := [Marker(a.activity, loa, exempt)] + " ";
    var fields := PadStart(a.ckey, adminLen, ' ') + " " + PadStart(a.rank, rankLen, ' ')
      + " " + PadStart(Decimal.FormatTenths(a.activity), 8, ' ');
    var tail := " " + Annotation(loa, exempt) + "\n";
    var line := front + fields + tail;
    assert line == FormatLine(a, adminLen, rankLen, loa, exempt);
    assert line[0] == front[0] && line[1] == ' ';
    assert line[|line| - |tail|..] == tail;
    assert !loa && !exempt ==> tail == " \n";
  }

  /**
   * Every row has its columns at offsets fixed by the two widths alone: the
   * ckey right-aligned in columns [2, 2 + adminLen), the rank in the next
   * rankLen columns after a space, the activity in the 8 after that, then a
   * space and the note. Together with the width facts of CollectActivity this
   * makes the columns line up from row to row.
   */
  lemma RowColumns(a: Activity, adminLen: int, rankLen: int, loa: bool, exempt: bool)
    requires |a.ckey| <= adminLen && |a.rank| <= rankLen
    requires |Decimal.FormatTenths(a.activity)| <= 8
    ensures var line := FormatLine(a, adminLen, rankLen, loa, exempt);
      && |line| == adminLen + rankLen + 14 + |Annotation(loa, exempt)|
      && line[2..2 + adminLen] == PadStart(a.ckey, adminLen, ' ')
      && line[2 + adminLen] == ' '
      && line[3 + adminLen..3 + adminLen + rankLen] == PadStart(a.rank, rankLen, ' ')
      && line[3 + adminLen + rankLen] == ' '
      && line[4 + adminLen + rankLen..12 + adminLen + rankLen] == PadStart(Decimal.FormatTenths(a.activity), 8, ' ')
      && line[12 + adminLen + rankLen..] == " " + Annotation(loa, exempt) + "\n"
  {
    var front := [Marker(a.activity, loa, exempt)] + " ";
    var c, r := PadStart(a.ckey, adminLen, ' '), PadStart(a.rank, rankLen, ' ');
    var v := PadStart(Decimal.FormatTenths(a.activity), 8, ' ');
    RowPieces(FormatLine(a, adminLen, rankLen, loa, exempt), front, c, r, v,
              " " + Annotation(loa, exempt) + "\n", adminLen, rankLen);
  }

  /** Where the pieces of a row land. */
  lemma RowPieces(line: string, front: string, c: string, r: string, v: string, tail: string,
                  adminLen: int, rankLen: int)
    requires line == front + (c + " " + r + " " + v) + tail
    requires |front| == 2 && |c| == adminLen && |r| == rankLen && |v| == 8
    ensures |line| == adminLen + rankLen + 12 + |tail|
    ensures line[2..2 + adminLen] == c
    ensures line[2 + adminLen] == ' '
    ensures line[3 + adminLen..3 + adminLen + rankLen] == r
    ensures line[3 + adminLen + rankLen] == ' '
    ensures line[4 + adminLen + rankLen..12 + adminLen + rankLen] == v
    ensures line[12 + adminLen + rankLen..] == tail
  {
    assert line == front + c + (" " + r + " " + v + tail);
    SliceOfConcat(front, c, " " + r + " " + v + tail);
    assert line == (front + c + " ") + r + (" " + v + tail);
    SliceOfConcat(front + c + " ", r, " " + v + tail);
    assert line == (front + c + " " + r + " ") + v + tail;
    SliceOfConcat(front + c + " " + r + " ", v, tail);
  }

  // ---------------------------------------------------------------------------
  // The header

  /** The title line: "Username" and "Rank" centred in their columns, then "Activity". */
  function Title(adminLen: int, rankLen: int): string {
    "  " + Center("Username", adminLen) + " " + Center("Rank", rankLen) + " Activity"
  }

  /** The rule under the title: '=' as long as the title. */
  function Rule(title: string): (rule: string)
    ensures |rule| == |title| && forall i :: 0 <= i < |rule| ==> rule[i] == '='
  {
    PadStart("", |title|, '=')
  }

  function Header(adminLen: int, rankLen: int): string {
    Title(adminLen, rankLen) + "\n" + Rule(Title(adminLen, rankLen)) + "\n"
  }

  /**
   * With the widths the report computes (at least 8 and 4) the title's labels
   * sit over their columns: "Username" centred over the ckeys, "Rank"
   * centred over the ranks, and "Activity" exactly over the 8-character
   * activity field of every row.
   */
  lemma HeaderColumns(adminLen: int, rankLen: int)
    requires adminLen >= 8 && rankLen >= 4
    ensures var title := Title(adminLen, rankLen);
      var userAt := 2 + (adminLen - 8) / 2;
      var rankAt := 3 + adminLen + (rankLen - 4) / 2;
      && |title| == adminLen + rankLen + 12
      && title[userAt..userAt + 8] == "Username"
      && title[2 + adminLen] == ' '
      && title[rankAt..rankAt + 4] == "Rank"
      && title[3 + adminLen + rankLen..] == " Activity"
  {
    var u, k := Center("Username", adminLen), Center("Rank", rankLen);
    var title := Title(adminLen, rankLen);
    TitlePieces(title, "  ", u, k, " Activity");
    LabelAt(title, 2, adminLen, "Username");
    LabelAt(title, 3 + adminLen, rankLen, "Rank");
  }

  /** A label centred in the field title[at..at + width] sits at the centring offset. */
  lemma LabelAt(title: string, at: int, width: int, name: string)
    requires 0 <= at && at + width <= |title| && width >= |name|
    requires title[at..at + width] == Center(name, width)
    ensures title[at + (width - |name|) / 2..at + (width - |name|) / 2 + |name|] == name
  {
    var off := (width - |name|) / 2;
    assert Center(name, width)[off..off + |name|] == name;
    SliceOfSlice(title, at, at + width, off, off + |name|);
  }

  /** Where the pieces of the title land. */
  lemma TitlePieces(title: string, front: string, u: string, k: string, last: string)
    requires title == front + u + " " + k + last
    requires |front| == 2
    ensures |title| == |u| + |k| + 3 + |last|
    ensures title[2..2 + |u|] == u
    ensures title[2 + |u|] == ' '
    ensures title[3 + |u|..3 + |u| + |k|] == k
    ensures title[3 + |u| + |k|..] == last
  {
    assert title == front + u + (" " + k + last);
    SliceOfConcat(front, u, " " + k + last);
    assert title == (front + u + " ") + k + last;
    SliceOfConcat(front + u + " ", k, last);
    assert title == (front + u + " " + k) + last + "";
    SliceOfConcat(front + u + " " + k, last, "");
  }

  // ---------------------------------------------------------------------------
  // The table and its messages

  /** Every row of the table, in the order given. */
  function Lines(activityData: seq<Activity>, adminLen: int, rankLen: int, loaAdmins: set<string>): (lines: seq<string>)
    ensures |lines| == |activityData|
  {
    seq(|activityData|, i requires 0 <= i < |activityData| =>
      FormatLine(activityData[i], adminLen, rankLen, activityData[i].ckey in loaAdmins,
                 Exempt(activityData[i].rank)))
  }

  /** printActivity: renders the title and the rule, then the rows, cut into messages. */
  method PrintActivity(adminLen: int, rankLen: int, activityData: seq<Activity>, loaAdmins: set<string>)
    returns (actions: seq<string>)
    ensures actions == Pager.Paginate(Header(adminLen, rankLen), Lines(activityData, adminLen, rankLen, loaAdmins))
  {
    var output := Pager.Fence;
    var title := Title(adminLen, rankLen);
    output := output + (title + "\n" + PadStart("", |title|, '=') + "\n");
    actions := PrintRows(output, Header(adminLen, rankLen), adminLen, rankLen, activityData, loaAdmins);
  }

  /**
   * The row loop of printActivity: appends each row to the open message,
   * first closing it and opening a new one when the row would take it past
   * the limit, and closes the last message at the end.
   */
  method PrintRows(start: string, ghost head: string, adminLen: int, rankLen: int,
                   activityData: seq<Activity>, loaAdmins: set<string>)
    returns (actions: seq<string>)
    requires start == Pager.Fence + head
    ensures actions == Pager.Paginate(head, Lines(activityData, adminLen, rankLen, loaAdmins))
  {
    ghost var lines := Lines(activityData, adminLen, rankLen, loaAdmins);
    actions := [];
    var output := start;
    var i := 0;
    while i < |activityData|
      invariant 0 <= i <= |activityData|
      invariant actions == Pager.Feed(head, lines[..i]).sent
      invariant output == Pager.Feed(head, lines[..i]).buffer
    {
      var activity := activityData[i];
      var loa := activity.ckey in loaAdmins;
      var exempt := Exempt(activity.rank);
      var line := FormatLine(activity, adminLen, rankLen, loa, exempt);
      assert line == lines[i];
      Pager.FeedStep(head, lines, i);
      if |output| + |line| > Pager.Limit {
        output := output + Pager.Close;
        actions := actions + [output];
        output := Pager.Fence;
      }
      output := output + line;
      i := i + 1;
    }
    Pager.FeedAll(head, lines, actions, output);
    output := output + Pager.Close;
    actions := actions + [output];
  }

  /** The messages the command sends for the given query results. */
  function Report(rows: seq<Activity>, loaNames: seq<string>): seq<string> {
    var kept := Kept(rows);
    var adminLen, rankLen := Widest(8, Ckeys(kept)), Widest(4, Ranks(kept));
    Pager.Paginate(Header(adminLen, rankLen), Lines(SortByActivity(kept), adminLen, rankLen, LoaSet(loaNames)))
  }

  /** What the command answers: the table's messages, or one reply about the database. */
  datatype Reply = Sent(messages: seq<string>) | Replied(text: string)

  /**
   * doCommand. Each query is None when it raised an SQL error; the LOA query
   * runs only after the activity rows are read and sorted.
   */
  method DoCommand(activityQuery: Option<seq<Activity>>, loaQuery: Option<seq<string>>) returns (reply: Reply)
    ensures activityQuery.None? || loaQuery.None? <==> reply == Replied(DatabaseError)
    ensures activityQuery.Some? && loaQuery.Some? ==> reply == Sent(Report(activityQuery.value, loaQuery.value))
  {
    if activityQuery.None? {
      return Replied(DatabaseError);
    }
    var activityData, adminLen, rankLen := CollectActivity(activityQuery.value);
    activityData := SortByActivity(activityData);
    if loaQuery.None? {
      return Replied(DatabaseError);
    }
    var loaAdmins := BuildLoaSet(loaQuery.value);
    var chunks := PrintActivity(adminLen, rankLen, activityData, loaAdmins);
    reply := Sent(chunks);
  }

  // ---------------------------------------------------------------------------
  // Properties of the whole report

  /**
   * The report's messages hold the rows of the kept admins, each exactly
   * once, in descending order of activity: the rows listed are a permutation
   * of the query's rows without the ignored ranks, and the messages read in
   * order give back exactly one rendered line per listed row.
   */
  lemma ReportListsKeptRowsInOrder(rows: seq<Activity>, loaNames: seq<string>)
    ensures var kept := Kept(rows);
      var listed := SortByActivity(kept);
      var adminLen, rankLen := Widest(8, Ckeys(kept)), Widest(4, Ranks(kept));
      var head := Header(adminLen, rankLen);
      var lines := Lines(listed, adminLen, rankLen, LoaSet(loaNames));
      && SortedDesc(listed)
      && (forall a :: multiset(listed)[a] == if a.rank in IgnoreRanks then 0 else multiset(rows)[a])
      && Report(rows, loaNames) == Pager.Paginate(head, lines)
      && |Report(rows, loaNames)| == |Pager.PageRows(head, lines)|
      && Pager.Flatten(Pager.PageRows(head, lines)) == lines
      && (forall k :: 0 <= k < |Report(rows, loaNames)| ==>
            Report(rows, loaNames)[k] == Pager.PageText(head, k, Pager.PageRows(head, lines)[k]) + Pager.Close)
  {
    var kept := Kept(rows);
    var adminLen, rankLen := Widest(8, Ckeys(kept)), Widest(4, Ranks(kept));
    var head := Header(adminLen, rankLen);
    var lines := Lines(SortByActivity(kept), adminLen, rankLen, LoaSet(loaNames));
    Pager.PaginateLayout(head, lines);
    forall a ensures multiset(SortByActivity(kept))[a] == if a.rank in IgnoreRanks then 0 else multiset(rows)[a] {
      KeptCounts(rows, a);
    }
  }

  /**
   * A row with an ignored rank changes nothing in the report, wherever it
   * stands in the query and however active it is: not the rows, not the
   * column widths, not the messages.
   */
  lemma IgnoredRowHasNoEffect(xs: seq<Activity>, a: Activity, ys: seq<Activity>, loaNames: seq<string>)
    requires a.rank in IgnoreRanks
    ensures Report(xs + [a] + ys, loaNames) == Report(xs + ys, loaNames)
  {
    KeptSkipsIgnored(xs, a, ys);
  }

  lemma KeptSkipsIgnored(xs: seq<Activity>, a: Activity, ys: seq<Activity>)
    requires a.rank in IgnoreRanks
    ensures Kept(xs + [a] + ys) == Kept(xs + ys)
  {
    KeptAppend(xs + [a], ys);
    KeptAppend(xs, [a]);
    KeptAppend(xs, ys);
    assert [a][..0] == [];
    assert Kept([a]) == Kept([]) + [];
    assert Kept(xs + [a]) == Kept(xs);
  }

  /**
   * When no ckey or rank is longer than 480 characters and every activity
   * prints in 8 characters, no message passes 1990 characters plus the
   * closing fence, so each fits in one Discord message.
   */
  lemma ReportFitsMessages(rows: seq<Activity>, loaNames: seq<string>)
    requires forall a :: a in rows ==>
      |a.ckey| <= 480 && |a.rank| <= 480 && |Decimal.FormatTenths(a.activity)| <= 8
    ensures forall k :: 0 <= k < |Report(rows, loaNames)| ==>
      |Report(rows, loaNames)[k]| <= Pager.Limit + |Pager.Close|
  {
    var kept := Kept(rows);
    var listed := SortByActivity(kept);
    var adminLen, rankLen := Widest(8, Ckeys(kept)), Widest(4, Ranks(kept));
    var head := Header(adminLen, rankLen);
    var loa := LoaSet(loaNames);
    var lines := Lines(listed, adminLen, rankLen, loa);
    WidthsBounded(rows);
    HeaderColumns(adminLen, rankLen);
    assert |head| == 2 * (adminLen + rankLen + 12) + 2;
    forall i | 0 <= i < |lines| ensures |Pager.Fence| + |lines[i]| <= Pager.Limit {
      var a := listed[i];
      assert a in multiset(kept);
      LineFits(a, adminLen, rankLen, a.ckey in loa, Exempt(a.rank));
    }
    Pager.ChunkSizeBound(head, lines);
  }

  /** The widths of a report whose names and ranks are short stay short. */
  lemma WidthsBounded(rows: seq<Activity>)
    requires forall a :: a in rows ==>
      |a.ckey| <= 480 && |a.rank| <= 480 && |Decimal.FormatTenths(a.activity)| <= 8
    ensures var kept := Kept(rows);
      && 8 <= Widest(8, Ckeys(kept)) <= 480 && 4 <= Widest(4, Ranks(kept)) <= 480
      && forall a :: a in kept ==>
           |a.ckey| <= Widest(8, Ckeys(kept)) && |a.rank| <= Widest(4, Ranks(kept))
           && |Decimal.FormatTenths(a.activity)| <= 8
  {
    var kept := Kept(rows);
    KeptFromRows(rows);
    WidthsCover(kept);
  }

  /** A row of a narrow table fits in a fresh message. */
  lemma LineFits(a: Activity, adminLen: int, rankLen: int, loa: bool, exempt: bool)
    requires |a.ckey| <= adminLen <= 480 && |a.rank| <= rankLen <= 480
    requires |Decimal.FormatTenths(a.activity)| <= 8
    ensures |Pager.Fence| + |FormatLine(a, adminLen, rankLen, loa, exempt)| <= Pager.Limit
  {
    RowMarkers(a, adminLen, rankLen, loa, exempt);
    assert |Annotation(loa, exempt)| <= 8;
  }

  /** Every kept row comes from the query. */
  lemma {:induction false} KeptFromRows(rows: seq<Activity>)
    ensures forall a :: a in Kept(rows) ==> a in rows
  {
    if rows != [] {
      KeptFromRows(rows[..|rows| - 1]);
    }
  }
}
