# Flair bot decision logic, in Dafny

This project models the decision logic of the `FlairBot` class in `flair_bot.py`, a bot that
assigns community flairs from private messages. One pass of the bot:

- reads the settings: the target subreddit, the expected subject and whether logging is on;
- loads a table from CSV rows that maps a class key to an optional flair text;
- walks the unread inbox in order;
- handles every message whose subject matches and whose author starts with a character of
  `[A-Za-z0-9_-]`:
  - it extracts the class key, which is the leftmost match of `\d+-\d+ season\d+ \d+`, from the
    body;
  - if the key is in the table, it sets the author's flair (the table's text, or `''` when the
    table has none) and, when logging is on, appends a log line;
  - it marks the message read.

The remote platform is replaced by a trace of actions, `Bot.Action`: `SetFlair`, `AppendLog`
and `MarkRead`. The class `Bot.FlairBot` keeps that trace in its `actions` field and the table
in its `flairs` field.

- The two loops of the source are methods proved against specification functions:
  - `FlairTable.BuildTable`, which `FlairBot.GetFlairs` calls, builds the table and is proved
    against `FlairTable.TableOf`;
  - `FlairBot.FetchPms` handles the inbox and is proved against `Bot.RunInbox`, a fold
    (`Bot.Trace`) over the per-message `Bot.Step`.
- `BotProperties` states what a whole pass does against per-message reference definitions
  (`EarnedFlair`, `Due`): which flairs are set, which log lines are written and which messages
  are marked read.
- The regular expression search is modelled in `ClassPattern`:
  - a matcher over a sequence of atoms (`\d+` or a literal), tried at each start position from
    left to right;
  - the proof that what it finds is the leftmost occurrence of the pattern's language, with
    maximal digit runs at both ends.
- The run logic in `Bot` takes the key finder as a parameter (`Bot.KeyFinder`). The bot's
  constructor fixes it to `ClassPattern.ExtractKey`, and `Bot.StartBot` states the whole
  process with that finder.

When the body holds no class key, `.group()` is called on `None` (flair_bot.py:96). That
raises and ends the pass, so the model ends the pass at that message (`Run.crashedAt`,
`Outcome.Crashed`). The `flair_class is not None` test that follows the call can never be
false.

The generic sequence lemmas `BotProperties.FlattenHas`, `FlattenCount`, `FlattenMirrors`,
`FlattenNone`, `CallsOne`, `CallsAppend` and `CallsCount` are proof helpers about
concatenating effects and selecting them by kind; they model no line of the source.

Modules:

- `wrappers.dfy`: `Option`.
- `flair_table.dfy`: `get_flairs`.
- `class_pattern.dfy`: the class-key search.
- `audit_log.dfy`: the log line.
- `bot.dfy`: the settings, the filter, `process_pm`, `fetch_pms`, the class and the start-up.
- `bot_properties.dfy`: properties of a whole pass.

## Model

| member | source | states |
|---|---|---|
| Bot.LoggingEnabled | flair_bot.py:33-36 | logging is off exactly when the configured value is the string `False` |
| Bot.FlairBot.constructor | flair_bot.py:20-36 | the bot starts with the configured subreddit, subject and logging flag (off only for `False`), the class-pattern key finder, an empty table and no effects |
| FlairTable.EntryOf | flair_bot.py:73-76 | a row stores its second column exactly when it has two columns, and `None` otherwise |
| FlairTable.TableOf | flair_bot.py:71-76 | the keys of the table built by assigning every row in order are exactly the rows' first columns |
| FlairTable.BuildTable | flair_bot.py:66-78 | the load fails exactly when some row is empty, and then reports the first empty row; otherwise the result is the table of last-written entries `TableOf(rows)` |
| FlairTable.TableOfLastWins | flair_bot.py:71-76 | a key is in the table iff some row starts with it; it holds the entry of the last such row: `row[1]` for a two-column row, `None` for any other width |
| FlairTable.LastEntryWins | flair_bot.py:72-76 | the entry under a key is that of the last row starting with it |
| Bot.FlairBot.GetFlairs | flair_bot.py:66-78 | on success the bot's table becomes `TableOf(rows)`; on an empty row the load fails and the table is unchanged |
| Bot.UserMatch | flair_bot.py:85-89 | the anchored match of `[A-Za-z0-9_-]+` exists iff the author is non-empty and starts with a character of the class; the match is the maximal run of such characters from the start |
| Bot.Accepts | flair_bot.py:85-90 | a message is handed to `process_pm` exactly when its subject is the configured one and its author is non-empty and starts with a character of `[A-Za-z0-9_-]`; later characters are not checked |
| ClassPattern.DigitRunIsRun | flair_bot.py:96 | a greedy `\d` run consists of digits and stops at the end of the string or at a non-digit |
| ClassPattern.SearchFrom | flair_bot.py:96 | the search returns the first start position where the pattern matches, with the span it matches, and reports no match only when no position matches |
| ClassPattern.Extract | flair_bot.py:96 | the search yields nothing exactly when the pattern matches at no position of the body; what it yields is in the pattern's language |
| ClassPattern.ExtractKey | flair_bot.py:96 | the key extracted from a body is a class key |
| ClassPattern.MatchAtomsSpells | flair_bot.py:96 | whatever the matcher consumes is a string of the pattern's language |
| ClassPattern.MatchAtomsEndsRun | flair_bot.py:96 | a pattern ending in `\d+` ends its match at the end of the body or before a non-digit, so the final digit run is maximal |
| ClassPattern.SpellsMatches | flair_bot.py:96 | for a pattern where no digit run can eat into the next literal, any occurrence of the language at a position makes the matcher succeed there, reaching at least as far |
| ClassPattern.MatchAtomsShiftsLeft | flair_bot.py:96 | a match starting on a digit preceded by a digit also succeeds one place earlier, with the same end |
| ClassPattern.ClassPatternWellFormed | flair_bot.py:96 | `\d+-\d+ season\d+ \d+` starts and ends with a digit run, and every digit run is followed by a literal that starts with a non-digit |
| ClassPattern.SearchFindsLeftmost | flair_bot.py:96 | the extracted key is in the pattern's language, starts at the beginning of a digit run, ends at the end of one, and no occurrence of the language starts further left |
| ClassPattern.ExtractIffContains | flair_bot.py:96 | the search succeeds iff the body contains a string of the pattern's language, and what it extracts is one |
| ClassPattern.ExtractKeyIffContains | flair_bot.py:96-99 | a body yields a class key iff it contains one, and the key it yields is a class key |
| AuditLog.LogLine | flair_bot.py:109-118 | the log line starts with the user and class fields and ends with the time and a newline; it holds a text segment exactly when the text is non-empty |
| AuditLog.LogLineIsOneLine | flair_bot.py:114-118 | a log entry whose fields hold no line break is exactly one line: it ends in `\n` and has no other line break |
| AuditLog.LogLineRecordsText | flair_bot.py:114-118 | for the same user, class and time, two entries are equal only when their texts are; an empty text, which omits the text segment, is told apart from any other |
| Bot.PmActions | flair_bot.py:94-106 | `process_pm` raises iff the body yields no key; otherwise its last effect is marking the message read |
| Bot.FlairBot.ProcessPm | flair_bot.py:94-106 | the method appends exactly the effects of `PmActions` to the trace and reports whether `process_pm` raised |
| Bot.Step | flair_bot.py:87-91 | one iteration raises iff the message passes the filter and yields no key; a rejected message has no effect; a handled one ends with its read mark |
| Bot.FlairBot.Handle | flair_bot.py:87-91 | the method appends exactly the effects of `Step` to the trace and reports whether the iteration raised |
| Bot.Trace | flair_bot.py:87-92 | a pass dies on the first iteration that raises, and only if one does |
| Bot.TraceStep | flair_bot.py:87-91 | a pass that has not died yet either dies on the next message or adds that message's effects |
| Bot.CrashIsFinal | flair_bot.py:87-92 | once a pass has died, the later messages change nothing |
| Bot.RunInbox | flair_bot.py:84-92 | the pass dies exactly on the first message that passes the filter and has no class key, and completes iff there is none |
| Bot.FlairBot.FetchPms | flair_bot.py:81-92 | the loop appends the effects of `RunInbox` to the trace and returns the position where the pass died, if any |
| Bot.PassStep | flair_bot.py:87-91 | one loop iteration in terms of the pass: either it extends the pass by one message or the pass ends at that message |
| Bot.StartBot | flair_bot.py:121 | an empty CSV row stops start-up before any message is read; otherwise the bot holds `TableOf(rows)`, its effects are those of `RunInbox` with the class-pattern finder, and it ends crashed at the failing message or exited |
| BotProperties.EarnedFlair | flair_bot.py:90-103 | reference definition: a message earns a flair call only if it passes the filter and its key is in the table; the call sets the author's flair on the configured subreddit to the table's text (or `''`) under that key |
| BotProperties.LogOf | flair_bot.py:104-118 | the log entry mirroring a flair call writes the line `LogLine(user, text, class, time)` |
| BotProperties.Due | flair_bot.py:90-106 | reference definition: a message is due at most one call of each kind, and only calls of that kind |
| BotProperties.StepCalls | flair_bot.py:94-106 | a message that does not raise makes exactly the flair call it earns, the mirroring log entry when logging is on, and a read mark iff it passed the filter |
| BotProperties.HandledCalls | flair_bot.py:100-106 | for a key in the table, `process_pm` makes exactly one flair call, one log entry only when logging is on, and one read mark |
| BotProperties.PassPrefix | flair_bot.py:87-92 | the effects of a pass are those of the messages before the one it died on (or of all of them) |
| BotProperties.TraceCalls | flair_bot.py:87-91 | the calls of one kind in a completed pass are the per-message calls of that kind, concatenated in inbox order |
| BotProperties.PassCalls | flair_bot.py:87-106 | the calls of each kind in a pass are those due to the messages it handled, in inbox order |
| BotProperties.PassFlairs | flair_bot.py:99-103 | a pass sets a flair `(author, text or '', key)` iff one of the messages it handled passed the filter and holds a key that is in the table |
| BotProperties.PassLogLines | flair_bot.py:104-118 | a pass writes a log entry iff logging is on and a message it handled earned a flair; the entry records that flair's user, text and class and the time the message was read |
| BotProperties.DueMirrors | flair_bot.py:104-105 | a message's log entry mirrors its flair call when logging is on; with logging off it gets no entry |
| BotProperties.PassLogs | flair_bot.py:104-105 | with logging on, the log entries of a pass mirror its flair calls one for one (same user, text, class); with logging off, no entry is written |
| BotProperties.DueReadCount | flair_bot.py:90-106 | a message is due exactly one read mark for its own id if it passes the filter, and none otherwise |
| BotProperties.PassMarksRead | flair_bot.py:87-106 | for distinct messages, each one is marked read exactly once if the pass handled it and it passed the filter, and never otherwise |

## Left out

- The remote client: login, `user.me()`, `inbox.unread()`, `subreddit.flair.set` and `mark_read` (flair_bot.py:38-62, 87, 97, 103, 106). They are foreign network calls. The inbox is a sequence of message records, and the two remote effects are `Bot.Action` values appended to the trace.
- Reading `conf.ini` and `os.chdir`/`os.path.exists` (flair_bot.py:23-31). This is configuration and file-system plumbing. The three values the logic uses are passed in as `Bot.Conf`, and the missing-file error is not modelled.
- CSV tokenising by `csv.reader` (flair_bot.py:69-70). It is a library parser. The table is built from the rows it would yield, with a blank line as the empty row.
- The log file append through `codecs.open` (flair_bot.py:112, 119). It is file I/O. The log line is the `AuditLog.LogLine` value carried by the `AppendLog` action.
- `gmtime`/`strftime` (flair_bot.py:113). It is the wall clock. The timestamp of each message is an input, in the sequence `clock` parallel to the inbox.
- `sys.exit()` (flair_bot.py:92). It is process termination. It appears as the `Exited` outcome of `Bot.StartBot`.
- Python's `\d` matches every Unicode decimal digit. The model accepts ASCII `0`-`9` only.
- `str(msg.author)` for a deleted author gives the string `None`, which passes the filter. The model takes the author string as already converted.
- Every foreign effect is assumed to succeed. This covers `open('flair_list.csv')` raising when the file is missing (flair_bot.py:69), `flair.set` or `mark_read` raising (flair_bot.py:103, 106), and the log write failing (flair_bot.py:112-119). A failing log write would end the pass after the flair was set but before the read mark.
- `ClassPattern` models only the regular-expression constructs the class pattern uses: `\d+` and literals. It is not a general engine.
- BotProperties.PassMarksRead: it requires the inbox's message ids to be distinct. Each `id` stands for one message object, so a repeated id would count the read marks of several messages together.
