# yogbot `activity` command: a verified model

This project models the admin activity report of the yogbot Discord bot, the
`activity` command in `ActivityCommand.kt`. The command runs in four steps:

1. It reads every admin's activity over the last two weeks and drops the
   ranks it ignores ("Maintainer" and "Bot"). While doing so it measures the
   widest ckey and the widest rank, starting from widths 8 and 4.
2. It sorts the rows by descending activity.
3. It reads the admins on leave of absence (LOA) and normalises their ckeys.
4. It prints a fixed-width table inside Discord `diff` code blocks:
   - a centred title, then a rule of `=`;
   - one row per admin. Each row starts with `+` (12 minutes or more), a blank
     (short of that but on leave or exempt) or `-` (short of that otherwise).
     Each row ends with "(LOA)", "(Exempt)" or nothing.
   - The table is cut into messages. A message is closed and sent whenever the
     next row would take it past 1990 characters.

## Modules

- `StringUtils`: the three text helpers the report uses (`padStart`,
  `center`, `ckeyIze`). Their bodies are not part of this model, so each gets
  a conventional body. The proofs rely only on their contracts.
- `Decimal`: the `"%.1f"` rendering of an activity, with a parser as its
  inverse.
- `Activities`: the `Activity` record, its `compareTo`, and the list sort.
  The sort is modelled as a stable insertion sort.
- `Sequences`: a few generic facts about sequences used as proof steps.
- `Pager`: the cutting of the table into messages.
  - `Feed` replays the send loop one row at a time and also records which rows
    went into each message.
  - `Paginate` is the list of messages the loop sends.
- `ActivityCommand`: the command itself.
  - `CollectActivity`, `BuildLoaSet`, `PrintActivity`/`PrintRows` and
    `DoCommand` are methods with the source's loops.
  - Each is proved against a specification function (`Kept`, `Widest`,
    `LoaSet`, `Lines`, `Paginate`, `Report`).

Query results come in as values. `None` stands for a query that raised an SQL
error. The messages the command sends come out as a sequence of strings.
Each activity is an integer count of tenths of a minute, because the query
rounds to one decimal. The "12 minutes" threshold is therefore 120 tenths.

## Model

| member | source | states |
|---|---|---|
| StringUtils.PadStart | src/main/java/net/yogstation/yogbot/listeners/commands/ActivityCommand.kt:146-151 | the padded field has length max(width, \|s\|), ends with s, and everything before s is the pad character |
| StringUtils.Center | src/main/java/net/yogstation/yogbot/listeners/commands/ActivityCommand.kt:130-133 | the centred field has length max(width, \|s\|), s sits at offset (padding)/2, and the rest is spaces |
| StringUtils.CkeyIze | src/main/java/net/yogstation/yogbot/listeners/commands/ActivityCommand.kt:108 | a normalised ckey contains only lower-case letters and digits and is no longer than the name |
| StringUtils.CkeyIzeIdempotent | src/main/java/net/yogstation/yogbot/listeners/commands/ActivityCommand.kt:108 | normalising an already normalised ckey changes nothing |
| StringUtils.CkeyIzeFixedIff | src/main/java/net/yogstation/yogbot/listeners/commands/ActivityCommand.kt:108 | a name is its own normal form exactly when it is already a ckey |
| Decimal.FormatTenths | src/main/java/net/yogstation/yogbot/listeners/commands/ActivityCommand.kt:151 | the printed activity has a '.' and one digit at the end, and starts with '-' exactly when it is negative |
| Decimal.FormatTenthsRoundTrip | src/main/java/net/yogstation/yogbot/listeners/commands/ActivityCommand.kt:151 | reading the printed activity back gives the same number of tenths |
| Decimal.FormatTenthsInjective | src/main/java/net/yogstation/yogbot/listeners/commands/ActivityCommand.kt:151 | two activities print the same only when they are equal |
| Activities.Compare | src/main/java/net/yogstation/yogbot/listeners/commands/ActivityCommand.kt:169-172 | compareTo is negative, zero or positive exactly when this activity is larger than, equal to or smaller than the other's (descending order) |
| Activities.CompareIsTotalPreorder | src/main/java/net/yogstation/yogbot/listeners/commands/ActivityCommand.kt:169-172 | compareTo is antisymmetric, total and transitive |
| Activities.Insert | src/main/java/net/yogstation/yogbot/listeners/commands/ActivityCommand.kt:100 | inserting into a descending list keeps it descending and adds exactly that row |
| Activities.SortByActivity | src/main/java/net/yogstation/yogbot/listeners/commands/ActivityCommand.kt:100 | the sorted rows are in descending activity and are a permutation of the input |
| Activities.SortKeepsSorted | src/main/java/net/yogstation/yogbot/listeners/commands/ActivityCommand.kt:100 | sorting rows already in descending order leaves them unchanged |
| Activities.InsertKeepsTies | src/main/java/net/yogstation/yogbot/listeners/commands/ActivityCommand.kt:100 | an inserted row goes in front of the rows with its own activity and leaves their order alone |
| Activities.SortIsStable | src/main/java/net/yogstation/yogbot/listeners/commands/ActivityCommand.kt:100 | for every activity value, the rows with that value keep their input order (the list sort is stable) |
| ActivityCommand.Kept | src/main/java/net/yogstation/yogbot/listeners/commands/ActivityCommand.kt:88 | no kept row has an ignored rank, and no row is added |
| ActivityCommand.KeptCounts | src/main/java/net/yogstation/yogbot/listeners/commands/ActivityCommand.kt:88 | a row is kept exactly as often as the query returned it, or never if its rank is ignored |
| ActivityCommand.WidestIsMax | src/main/java/net/yogstation/yogbot/listeners/commands/ActivityCommand.kt:85-96 | the measured width is at least the floor and every name, and equals the floor or some name's length |
| ActivityCommand.WidthsCover | src/main/java/net/yogstation/yogbot/listeners/commands/ActivityCommand.kt:85-96 | adminLen ≥ 8 and rankLen ≥ 4 cover every kept ckey and rank, and each is its floor or reached by a kept row |
| ActivityCommand.Widest | src/main/java/net/yogstation/yogbot/listeners/commands/ActivityCommand.kt:95-96 | the column width: the running maximum of the floor and each name's length, as the two `if` updates compute it; WidestIsMax states what it equals |
| ActivityCommand.CollectActivity | src/main/java/net/yogstation/yogbot/listeners/commands/ActivityCommand.kt:84-97 | the loop keeps exactly the rows whose rank is not ignored, in query order, and sets adminLen = max(8, longest kept ckey) and rankLen = max(4, longest kept rank) |
| ActivityCommand.LoaSet | src/main/java/net/yogstation/yogbot/listeners/commands/ActivityCommand.kt:103-108 | the set of LOA ckeys: every member is a ckey and every name of the LOA query contributes its normal form |
| ActivityCommand.BuildLoaSet | src/main/java/net/yogstation/yogbot/listeners/commands/ActivityCommand.kt:103-108 | the LOA set is exactly the normalised names of the LOA query, and all of them are ckeys |
| ActivityCommand.OnLeaveOnlyIfCanonical | src/main/java/net/yogstation/yogbot/listeners/commands/ActivityCommand.kt:141 | the leave test uses the raw ckey, so a ckey that is not in normal form is never found on leave |
| ActivityCommand.Marker | src/main/java/net/yogstation/yogbot/listeners/commands/ActivityCommand.kt:143-145 | the leading marker is '+' exactly when activity is at least 12 minutes, ' ' exactly when below that and on leave or exempt, '-' exactly when below that and neither |
| ActivityCommand.Annotation | src/main/java/net/yogstation/yogbot/listeners/commands/ActivityCommand.kt:153 | the note is "(LOA)" when on leave, else "(Exempt)" when exempt, else empty; RowMarkers states where it lands |
| ActivityCommand.FormatLine | src/main/java/net/yogstation/yogbot/listeners/commands/ActivityCommand.kt:140-154 | one row: marker, space, ckey padded to adminLen, space, rank padded to rankLen, space, activity padded to 8, space, note, newline; RowMarkers and RowColumns state its properties |
| ActivityCommand.Lines | src/main/java/net/yogstation/yogbot/listeners/commands/ActivityCommand.kt:139-154 | the rendered rows, one per listed admin in list order, each with its own leave and exempt status |
| ActivityCommand.RowMarkers | src/main/java/net/yogstation/yogbot/listeners/commands/ActivityCommand.kt:140-154 | a row starts with '+' exactly when activity ≥ 12 minutes, with ' ' exactly when it is below that and the admin is on leave or exempt, and with '-' otherwise; then a space. It ends with " (LOA)", else " (Exempt)", else " ", then a newline. Its length is the sum of the padded fields |
| ActivityCommand.RowColumns | src/main/java/net/yogstation/yogbot/listeners/commands/ActivityCommand.kt:146-154 | with the measured widths, every row has the padded ckey, rank and activity at the same offsets, separated by single spaces |
| ActivityCommand.Title | src/main/java/net/yogstation/yogbot/listeners/commands/ActivityCommand.kt:130-134 | the title: two spaces, "Username" centred in adminLen, a space, "Rank" centred in rankLen, then " Activity"; HeaderColumns states its layout |
| ActivityCommand.Rule | src/main/java/net/yogstation/yogbot/listeners/commands/ActivityCommand.kt:137 | the rule under the title is all '=' and exactly as long as the title |
| ActivityCommand.Header | src/main/java/net/yogstation/yogbot/listeners/commands/ActivityCommand.kt:135-138 | the header: the title, a newline, the rule, a newline; PaginateFenced and PaginateLayout state that it opens the first message only |
| ActivityCommand.HeaderColumns | src/main/java/net/yogstation/yogbot/listeners/commands/ActivityCommand.kt:130-134 | the title is adminLen + rankLen + 12 long. "Username" is centred over the ckey column and "Rank" over the rank column. " Activity" fills the separator and the 8-character activity field |
| ActivityCommand.PrintActivity | src/main/java/net/yogstation/yogbot/listeners/commands/ActivityCommand.kt:120-167 | the messages sent are Paginate of the header (title, newline, rule, newline) and the rendered rows in list order |
| ActivityCommand.PrintRows | src/main/java/net/yogstation/yogbot/listeners/commands/ActivityCommand.kt:139-165 | the row loop's flushes and the final send produce exactly Paginate's messages |
| ActivityCommand.DoCommand | src/main/java/net/yogstation/yogbot/listeners/commands/ActivityCommand.kt:71-118 | the reply is the database error message exactly when a query fails; otherwise the messages sent are Report of the two query results |
| ActivityCommand.Report | src/main/java/net/yogstation/yogbot/listeners/commands/ActivityCommand.kt:84-165 | the messages for two successful queries: the kept rows, sorted, measured and rendered, then paginated; ReportListsKeptRowsInOrder, IgnoredRowHasNoEffect and ReportFitsMessages state its properties |
| ActivityCommand.ReportListsKeptRowsInOrder | src/main/java/net/yogstation/yogbot/listeners/commands/ActivityCommand.kt:84-165 | the listed rows are the non-ignored query rows, each as often as queried, in descending activity. Read in order, the messages hold each rendered row exactly once |
| ActivityCommand.IgnoredRowHasNoEffect | src/main/java/net/yogstation/yogbot/listeners/commands/ActivityCommand.kt:88 | adding a row with an ignored rank anywhere in the query changes no message, whatever its activity (even though "Maintainer" and "Bot" are also exempt ranks) |
| ActivityCommand.ReportFitsMessages | src/main/java/net/yogstation/yogbot/listeners/commands/ActivityCommand.kt:155-165 | when ckeys and ranks are at most 480 characters and activities print in 8, no message is longer than 1990 plus the closing fence |
| Pager.Append | src/main/java/net/yogstation/yogbot/listeners/commands/ActivityCommand.kt:155-163 | one turn of the row loop: when the buffer plus the row passes 1990, the buffer is closed and sent and a fresh fenced buffer takes the row; otherwise the row is appended; FeedFlushRule states the rule over all messages |
| Pager.Feed | src/main/java/net/yogstation/yogbot/listeners/commands/ActivityCommand.kt:139-163 | the loop state after the given rows, starting from the fence and the header; FeedLayout and FeedFlushRule state what it holds |
| Pager.Paginate | src/main/java/net/yogstation/yogbot/listeners/commands/ActivityCommand.kt:164-165 | every message sent: those flushed in the loop and the last buffer, closed; PaginateFenced, PaginateLayout and ChunkSizeBound state its properties |
| Pager.PaginateFenced | src/main/java/net/yogstation/yogbot/listeners/commands/ActivityCommand.kt:129-165 | at least one message is sent, even with no rows. Every message opens with the diff fence and ends with the closing fence. The first message carries the header right after the opening fence |
| Pager.PaginateLayout | src/main/java/net/yogstation/yogbot/listeners/commands/ActivityCommand.kt:139-165 | message k is the fence, then the header (first message only), then its own rows in order, then the closing fence. Every message after the first has a row. All messages' rows, read in order, are exactly the rows given |
| Pager.FeedFlushRule | src/main/java/net/yogstation/yogbot/listeners/commands/ActivityCommand.kt:156-161 | a message is closed early exactly when the next row would take it past 1990 characters. Every row that joined an open message fitted under 1990 |
| Pager.ChunkSizeBound | src/main/java/net/yogstation/yogbot/listeners/commands/ActivityCommand.kt:156-165 | when the header and each row fit in an empty message, no message exceeds 1990 characters plus the closing fence |

## Left out

- JDBC is not modelled: the connection, statements, result sets and the SQL text. This includes the two-week window, the division by 60 and the rounding in the query. The query results are inputs.
- Closing the statements and the connection is not modelled, nor the fact that the connection stays open when a query throws. Resources are outside the model.
- The logging of the SQL error is not modelled; only the reply to the user is.
- Discord and Reactor are not modelled: `DiscordUtil.send`, `DiscordUtil.reply`, `Mono.when` and the event object. The messages are returned as a sequence of strings in the order the sends are created; `Mono.when` subscribes to all of them together, so Discord may show them in another order.
- The permission check (`requiredPermissions = "note"`) is outside the model. It belongs to the command framework, which is not part of this model.
- String lengths are counted per Unicode character, while Kotlin's `String.length` and `StringBuilder.length` count UTF-16 code units. The two differ only for characters outside the Basic Multilingual Plane (such as emoji), which count twice in the source: there the column widths, the padding and the 1990-character flush test see different lengths.
- Activity is modelled as whole tenths of a minute, not as a `Float`. This is exact because the query already rounds to one decimal. Float NaN and negative zero cannot arise here.
- Decimal.FormatTenths: assumes a locale whose decimal separator is '.'; `Locale.getDefault()` is not modelled.
- The bodies of `StringUtils.padStart`, `center` and `ckeyIze` are not part of this model. They are given conventional bodies: pad on the left; centre with the smaller half of the padding on the left; keep lower-cased ASCII letters and digits.
- StringUtils.CkeyIze: lower-cases ASCII letters only; Unicode case mapping is not modelled.
- ActivityCommand.PrintRows: is a separate method for the row loop of printActivity; the source runs it inline after the header.
- Activities.SortByActivity: models the library's stable list sort as insertion sort, since the sort's own code is not part of the repository. Only its outcome is modelled: sorted, a permutation, and stable.
- ActivityCommand.ReportFitsMessages: needs ckeys and ranks of at most 480 characters. The source does not check this; a longer name can produce a message over the limit.
- `SoftbanCommand.java` is left out. It builds and reads a Discord modal and has no logic of its own beyond library parsing.
- `ChannelBanCommand.java` is left out. It only adds or removes a Discord role.
- `GithubConfig.kt` is left out. It holds two configuration fields and has no logic.
