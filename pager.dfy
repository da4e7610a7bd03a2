/**
 * Splitting the activity table into Discord messages.
 *
 * The report keeps one growing buffer that starts with the opening fence and
 * the table header. Before each row is appended it checks whether the buffer
 * plus the row would pass `Limit` characters; if so the buffer is closed with
 * the closing fence and sent, and a fresh buffer starting with the opening
 * fence takes its place. After the last row the buffer is closed and sent
 * whatever its size.
 *
 * `Feed` replays that loop row by row. Besides the texts, a `Pager` also keeps
 * which rows went into each message, so that the lemmas below can say how the
 * messages are made of the rows.
 */
module Pager {

  import opened Sequences

  const Fence: string := "```diff\n"
  const Close: string := "```"
  const Limit: nat := 1990

  /** Strings glued end to end. */
  function Concat(s: seq<string>): string {
    if s == [] then "" else Concat(s[..|s| - 1]) + s[|s| - 1]
  }

  /** Row groups glued end to end. */
  function Flatten(g: seq<seq<string>>): seq<string> {
    if g == [] then [] else Flatten(g[..|g| - 1]) + g[|g| - 1]
  }

  lemma ConcatSnoc(s: seq<string>, x: string)
    ensures Concat(s + [x]) == Concat(s) + x
  {
    assert (s + [x])[..|s|] == s;
  }

  lemma FlattenSnoc(g: seq<seq<string>>, x: seq<string>)
    ensures Flatten(g + [x]) == Flatten(g) + x
  {
    assert (g + [x])[..|g|] == g;
  }

  /** The table header sits only in the first message. */
  function Lead(head: string, k: nat): string {
    if k == 0 then head else ""
  }

  /** The text of message k holding `rows`, before its closing fence. */
  function PageText(head: string, k: nat, rows: seq<string>): string {
    Fence + Lead(head, k) + Concat(rows)
  }

  /**
   * The loop state: messages already sent with the rows each holds, and the
   * buffer with the rows appended to it since it was last emptied.
   */
  datatype Pager = Pager(sent: seq<string>, buffer: string, sentRows: seq<seq<string>>, bufferRows: seq<string>)

  /** The rows of every message, the buffer's counting as the last one. */
  function Pages(p: Pager): seq<seq<string>> {
    p.sentRows + [p.bufferRows]
  }

  function Start(head: string): Pager {
    Pager([], Fence + head, [], [])
  }

  /** One turn of the row loop. */
  function Append(p: Pager, line: string): Pager {
    if |p.buffer| + |line| > Limit then
      Pager(p.sent + [p.buffer + Close], Fence + line, p.sentRows + [p.bufferRows], [line])
    else
      Pager(p.sent, p.buffer + line, p.sentRows, p.bufferRows + [line])
  }

  /** The loop state after the given rows. */
  function Feed(head: string, lines: seq<string>): Pager {
    if lines == [] then Start(head)
    else Append(Feed(head, lines[..|lines| - 1]), lines[|lines| - 1])
  }

  lemma FeedSnoc(head: string, lines: seq<string>, line: string)
    ensures Feed(head, lines + [line]) == Append(Feed(head, lines), line)
  {
    assert (lines + [line])[..|lines|] == lines;
  }

  /** The loop state after the row at index i. */
  lemma FeedStep(head: string, lines: seq<string>, i: nat)
    requires i < |lines|
    ensures Feed(head, lines[..i + 1]) == Append(Feed(head, lines[..i]), lines[i])
  {
    TakeSnoc(lines, i);
    FeedSnoc(head, lines[..i], lines[i]);
  }

  /** What the loop leaves once every row is fed: the messages sent and the last one closed. */
  lemma FeedAll(head: string, lines: seq<string>, sent: seq<string>, buffer: string)
    requires sent == Feed(head, lines[..|lines|]).sent && buffer == Feed(head, lines[..|lines|]).buffer
    ensures sent + [buffer + Close] == Paginate(head, lines)
  {
    assert lines[..|lines|] == lines;
  }

  /** Every message the report sends, in order. */
  function Paginate(head: string, lines: seq<string>): seq<string> {
    var p := Feed(head, lines);
    p.sent + [p.buffer + Close]
  }

  /**
   * Every message is a fenced code block: it opens with the fence, ends with
   * the closing fence, and the first one carries the header right after the
   * opening fence.
   */
  lemma PaginateFenced(head: string, lines: seq<string>)
    ensures var chunks := Paginate(head, lines);
      && |chunks| >= 1
      && (forall k :: 0 <= k < |chunks| ==> |chunks[k]| >= |Fence| + |Close|)
      && (forall k :: 0 <= k < |chunks| ==> chunks[k][..|Fence|] == Fence)
      && (forall k :: 0 <= k < |chunks| ==> chunks[k][|chunks[k]| - |Close|..] == Close)
      && |chunks[0]| >= |Fence| + |head| + |Close|
      && chunks[0][..|Fence| + |head|] == Fence + head
  {
    var p := Feed(head, lines);
    FeedLayout(head, lines);
    ChunksFenced(head, p.sent + [p.buffer + Close], Pages(p));
  }

  lemma ChunksFenced(head: string, chunks: seq<string>, pages: seq<seq<string>>)
    requires |chunks| == |pages|
    requires forall k :: 0 <= k < |chunks| ==> chunks[k] == PageText(head, k, pages[k]) + Close
    ensures forall k :: 0 <= k < |chunks| ==> |chunks[k]| >= |Fence| + |Close|
    ensures forall k :: 0 <= k < |chunks| ==> chunks[k][..|Fence|] == Fence
    ensures forall k :: 0 <= k < |chunks| ==> chunks[k][|chunks[k]| - |Close|..] == Close
    ensures |chunks| > 0 ==> |chunks[0]| >= |Fence| + |head| + |Close|
    ensures |chunks| > 0 ==> chunks[0][..|Fence| + |head|] == Fence + head
  {
    forall k | 0 <= k < |chunks|
      ensures |chunks[k]| >= |Fence| + |Close|
      ensures chunks[k][..|Fence|] == Fence
      ensures chunks[k][|chunks[k]| - |Close|..] == Close
    {
      var body := Lead(head, k) + Concat(pages[k]);
      assert chunks[k] == Fence + body + Close;
    }
    if |chunks| > 0 {
      assert chunks[0] == Fence + head + (Concat(pages[0]) + Close);
    }
  }

  /** The rows of each message Paginate returns. */
  function PageRows(head: string, lines: seq<string>): seq<seq<string>> {
    Pages(Feed(head, lines))
  }

  /** The loop state's texts are made of its row groups, which are the rows fed so far. */
  ghost predicate Laid(head: string, lines: seq<string>, p: Pager) {
    RowsFed(lines, p) && TextsLaid(head, p) && NoneEmptyAfterFirst(p)
  }

  /** The row groups, read in order, are the rows fed so far. */
  ghost predicate RowsFed(lines: seq<string>, p: Pager) {
    |p.sentRows| == |p.sent| && Flatten(p.sentRows) + p.bufferRows == lines
  }

  /** Each text is the fence, the header if first, and its rows. */
  ghost predicate TextsLaid(head: string, p: Pager)
    requires |p.sentRows| == |p.sent|
  {
    && (forall k :: 0 <= k < |p.sent| ==> p.sent[k] == PageText(head, k, p.sentRows[k]) + Close)
    && p.buffer == PageText(head, |p.sent|, p.bufferRows)
  }

  /** Only the first message can be without rows. */
  ghost predicate NoneEmptyAfterFirst(p: Pager) {
    forall k :: 1 <= k < |Pages(p)| ==> Pages(p)[k] != []
  }

  lemma {:induction false} FeedLayout(head: string, lines: seq<string>)
    ensures Laid(head, lines, Feed(head, lines))
  {
    if lines == [] {
      assert Concat([]) == "";
    } else {
      var init, line := lines[..|lines| - 1], lines[|lines| - 1];
      assert lines == init + [line];
      FeedLayout(head, init);
      var p := Feed(head, init);
      assert Feed(head, lines) == Append(p, line);
      if |p.buffer| + |line| > Limit {
        LaidAfterFlush(head, init, line, p);
      } else {
        LaidAfterKeep(head, init, line, p);
      }
    }
  }

  lemma LaidAfterFlush(head: string, lines: seq<string>, line: string, p: Pager)
    requires Laid(head, lines, p)
    ensures Laid(head, lines + [line],
                 Pager(p.sent + [p.buffer + Close], Fence + line, p.sentRows + [p.bufferRows], [line]))
  {
    var q := Pager(p.sent + [p.buffer + Close], Fence + line, p.sentRows + [p.bufferRows], [line]);
    FlattenSnoc(p.sentRows, p.bufferRows);
    AppendAssoc(Flatten(p.sentRows), p.bufferRows, [line]);
    assert RowsFed(lines + [line], q);
    TextsAfterFlush(head, p, line);
    forall k | 1 <= k < |Pages(q)| ensures Pages(q)[k] != [] {
      if k < |Pages(p)| {
        assert Pages(q)[k] == Pages(p)[k];
      }
    }
  }

  lemma TextsAfterFlush(head: string, p: Pager, line: string)
    requires |p.sentRows| == |p.sent| && TextsLaid(head, p)
    ensures TextsLaid(head, Pager(p.sent + [p.buffer + Close], Fence + line, p.sentRows + [p.bufferRows], [line]))
  {
    var q := Pager(p.sent + [p.buffer + Close], Fence + line, p.sentRows + [p.bufferRows], [line]);
    ConcatSnoc([], line);
    assert [] + [line] == [line];
    assert q.buffer == PageText(head, |q.sent|, q.bufferRows);
    forall k | 0 <= k < |q.sent| ensures q.sent[k] == PageText(head, k, q.sentRows[k]) + Close {
      if k < |p.sent| {
        assert q.sent[k] == p.sent[k] && q.sentRows[k] == p.sentRows[k];
      }
    }
  }

  lemma LaidAfterKeep(head: string, lines: seq<string>, line: string, p: Pager)
    requires Laid(head, lines, p)
    ensures Laid(head, lines + [line], Pager(p.sent, p.buffer + line, p.sentRows, p.bufferRows + [line]))
  {
    var q := Pager(p.sent, p.buffer + line, p.sentRows, p.bufferRows + [line]);
    ConcatSnoc(p.bufferRows, line);
    AppendAssoc(Fence + Lead(head, |p.sent|), Concat(p.bufferRows), line);
    assert TextsLaid(head, q);
    AppendAssoc(Flatten(p.sentRows), p.bufferRows, [line]);
    assert RowsFed(lines + [line], q);
    forall k | 1 <= k < |Pages(q)| ensures Pages(q)[k] != [] {
      if k < |p.sentRows| {
        assert Pages(q)[k] == Pages(p)[k];
      }
    }
  }

  /** A message was closed early only because its next row would have passed the limit. */
  ghost predicate FlushedOnlyWhenFull(head: string, pages: seq<seq<string>>) {
    forall k :: 1 <= k < |pages| ==>
      pages[k] != [] && |PageText(head, k - 1, pages[k - 1])| + |pages[k][0]| > Limit
  }

  /** Every row that joined a message without opening it fitted under the limit. */
  ghost predicate KeptOnlyWhenFitting(head: string, pages: seq<seq<string>>) {
    forall k, j :: 0 <= k < |pages| && 0 <= j < |pages[k]| && (k == 0 || j > 0) ==>
      |PageText(head, k, pages[k][..j])| + |pages[k][j]| <= Limit
  }

  /**
   * The loop closes a message early exactly when the next row would take it
   * past the limit: every message after the first was opened by a row that
   * did not fit in the one before, and every other row fitted where it went.
   */
  lemma {:induction false} FeedFlushRule(head: string, lines: seq<string>)
    ensures FlushedOnlyWhenFull(head, PageRows(head, lines))
    ensures KeptOnlyWhenFitting(head, PageRows(head, lines))
  {
    if lines != [] {
      var init, line := lines[..|lines| - 1], lines[|lines| - 1];
      assert lines == init + [line];
      FeedFlushRule(head, init);
      FeedLayout(head, init);
      var p := Feed(head, init);
      assert Feed(head, lines) == Append(p, line);
      if |p.buffer| + |line| > Limit {
        RulesAfterFlush(head, Pages(p), line);
      } else {
        RulesAfterKeep(head, Pages(p), line);
      }
    }
  }

  /** Closing the buffer because the next row does not fit keeps both rules. */
  lemma RulesAfterFlush(head: string, pages: seq<seq<string>>, line: string)
    requires pages != []
    requires FlushedOnlyWhenFull(head, pages) && KeptOnlyWhenFitting(head, pages)
    requires |PageText(head, |pages| - 1, pages[|pages| - 1])| + |line| > Limit
    ensures FlushedOnlyWhenFull(head, pages + [[line]]) && KeptOnlyWhenFitting(head, pages + [[line]])
  {
    var q := pages + [[line]];
    forall k, j | 0 <= k < |q| && 0 <= j < |q[k]| && (k == 0 || j > 0)
      ensures |PageText(head, k, q[k][..j])| + |q[k][j]| <= Limit
    {
      assert k < |pages|;
      assert q[k] == pages[k];
    }
    forall k | 1 <= k < |q|
      ensures q[k] != [] && |PageText(head, k - 1, q[k - 1])| + |q[k][0]| > Limit
    {
      assert q[k - 1] == pages[k - 1];
    }
  }

  /** Appending a row that fits keeps both rules. */
  lemma RulesAfterKeep(head: string, pages: seq<seq<string>>, line: string)
    requires pages != []
    requires FlushedOnlyWhenFull(head, pages) && KeptOnlyWhenFitting(head, pages)
    requires |PageText(head, |pages| - 1, pages[|pages| - 1])| + |line| <= Limit
    ensures var n := |pages| - 1;
      FlushedOnlyWhenFull(head, pages[..n] + [pages[n] + [line]])
      && KeptOnlyWhenFitting(head, pages[..n] + [pages[n] + [line]])
  {
    var n := |pages| - 1;
    var q := pages[..n] + [pages[n] + [line]];
    forall k | 1 <= k < |q|
      ensures q[k] != [] && |PageText(head, k - 1, q[k - 1])| + |q[k][0]| > Limit
    {
      assert q[k - 1] == pages[k - 1];
      assert q[k][0] == pages[k][0];
    }
    forall k, j | 0 <= k < |q| && 0 <= j < |q[k]| && (k == 0 || j > 0)
      ensures |PageText(head, k, q[k][..j])| + |q[k][j]| <= Limit
    {
      if k < n || j < |pages[n]| {
        assert q[k][..j] == pages[k][..j] && q[k][j] == pages[k][j];
      } else {
        assert q[k][..j] == pages[n] && q[k][j] == line;
      }
    }
  }

  /**
   * How the messages are made: each is the opening fence, the header (first
   * message only), its own rows in order and the closing fence; every message
   * after the first holds at least one row; and the rows of all messages,
   * read in order, are exactly the rows given, each in exactly one message.
   */
  lemma PaginateLayout(head: string, lines: seq<string>)
    ensures |Paginate(head, lines)| == |PageRows(head, lines)|
    ensures Flatten(PageRows(head, lines)) == lines
    ensures forall k :: 0 <= k < |PageRows(head, lines)| ==>
      Paginate(head, lines)[k] == PageText(head, k, PageRows(head, lines)[k]) + Close
    ensures forall k :: 1 <= k < |PageRows(head, lines)| ==> PageRows(head, lines)[k] != []
  {
    var p := Feed(head, lines);
    FeedLayout(head, lines);
    FlattenSnoc(p.sentRows, p.bufferRows);
    var chunks, pages := Paginate(head, lines), PageRows(head, lines);
    assert chunks == p.sent + [p.buffer + Close];
    assert pages == p.sentRows + [p.bufferRows];
    forall k | 0 <= k < |pages| ensures chunks[k] == PageText(head, k, pages[k]) + Close {
      if k < |p.sent| {
        assert chunks[k] == p.sent[k] && pages[k] == p.sentRows[k];
      }
    }
  }

  /**
   * When the header and every row fit in an empty message, no message is
   * longer than the limit plus the closing fence.
   */
  lemma ChunkSizeBound(head: string, lines: seq<string>)
    requires |Fence| + |head| <= Limit
    requires forall i :: 0 <= i < |lines| ==> |Fence| + |lines[i]| <= Limit
    ensures forall k :: 0 <= k < |Paginate(head, lines)| ==> |Paginate(head, lines)[k]| <= Limit + |Close|
  {
    var chunks, pages := Paginate(head, lines), PageRows(head, lines);
    PaginateLayout(head, lines);
    FeedFlushRule(head, lines);
    forall k | 0 <= k < |chunks| ensures |chunks[k]| <= Limit + |Close| {
      if k > 0 {
        FlattenHas(pages, k, 0);
      }
      PageFits(head, pages, k);
    }
  }

  /** One message's text, before its closing fence, stays within the limit. */
  lemma PageFits(head: string, pages: seq<seq<string>>, k: nat)
    requires k < |pages|
    requires KeptOnlyWhenFitting(head, pages)
    requires |Fence| + |head| <= Limit
    requires k > 0 ==> pages[k] != [] && |Fence| + |pages[k][0]| <= Limit
    ensures |PageText(head, k, pages[k])| <= Limit
  {
    var rows := pages[k];
    if rows == [] {
      assert Concat(rows) == "";
    } else {
      var j := |rows| - 1;
      assert rows == rows[..j] + [rows[j]];
      ConcatSnoc(rows[..j], rows[j]);
      if k > 0 && j == 0 {
        assert Concat(rows[..j]) == "";
      }
    }
  }

  lemma {:induction false} FlattenHas(g: seq<seq<string>>, k: nat, j: nat)
    requires k < |g| && j < |g[k]|
    ensures g[k][j] in Flatten(g)
  {
    var last := |g| - 1;
    assert g == g[..last] + [g[last]];
    FlattenSnoc(g[..last], g[last]);
    if k < last {
      FlattenHas(g[..last], k, j);
    }
  }
}
