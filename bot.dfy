/** The decision logic of the `FlairBot` class. The remote platform is replaced by the
    trace of calls the bot makes on it (setting a flair, marking a message read) and of
    the lines it appends to its log file; the inbox is a sequence of message records and
    the clock a sequence of readings, one per message. */
module Bot {
  import opened Wrappers
  import opened FlairTable
  import opened ClassPattern
  import opened AuditLog

  /** The settings read from `conf.ini` that the decision logic uses: the `logging` value
      of section `log`, the subreddit `name` and the expected message `subject`. */
  datatype Conf = Conf(logging: string, subredditName: string, subject: string)

  /** What the bot holds for the run. */
  datatype Settings = Settings(subreddit: string, subject: string, logging: bool)

  /** Logging is off only for the exact configuration value "False". */
  function LoggingEnabled(value: string): (on: bool)
    ensures !on <==> value == "False"
  {
    value != "False"
  }

  function SettingsOf(conf: Conf): Settings {
    Settings(conf.subredditName, conf.subject, LoggingEnabled(conf.logging))
  }

  /** An unread private message. `author` is `str(msg.author)`; `id` stands for the message
      object that `mark_read` acts on. */
  datatype Message = Message(id: nat, author: string, subject: string, body: string)

  /** One effect of the bot, in the order it happens. */
  datatype Action =
    | SetFlair(subreddit: string, user: string, text: string, cls: string) // subreddit.flair.set(user, text, cls)
    | AppendLog(user: string, text: string, cls: string, time: string)    // log(user, text, cls) at `time`
    | MarkRead(id: nat)                                                   // msg.mark_read()

  /** The line a log action appends to the log file. */
  function LineOf(a: Action): string
    requires a.AppendLog?
  {
    LogLine(a.user, a.text, a.cls, a.time)
  }

  datatype Kind = FlairCall | LogCall | ReadCall

  function KindOf(a: Action): Kind {
    match a
    case SetFlair(_, _, _, _) => FlairCall
    case AppendLog(_, _, _, _) => LogCall
    case MarkRead(_) => ReadCall
  }

  /** The actions of one kind, in order. */
  function Calls(acts: seq<Action>, k: Kind): seq<Action>
    decreases |acts|
  {
    if acts == [] then []
    else
      var last := acts[|acts| - 1];
      Calls(acts[..|acts| - 1], k) + (if KindOf(last) == k then [last] else [])
  }

  predicate IsUserChar(c: char) {
    'A' <= c <= 'Z' || 'a' <= c <= 'z' || '0' <= c <= '9' || c == '_' || c == '-'
  }

  /** The number of characters a greedy `[A-Za-z0-9_-]*` consumes from position `i`. */
  function UserRun(a: string, i: nat): (n: nat)
    requires i <= |a|
    ensures i + n <= |a|
    ensures forall j :: i <= j < i + n ==> IsUserChar(a[j])
    ensures i + n == |a| || !IsUserChar(a[i + n])
    decreases |a| - i
  {
    if i < |a| && IsUserChar(a[i]) then 1 + UserRun(a, i + 1) else 0
  }

  /** `re.match(r'[A-Za-z0-9_-]+', author)`: the length of the match anchored at the start
      of the author, if any. Only its first character decides whether there is one; the
      characters after the match are never looked at. */
  function UserMatch(author: string): (r: Option<nat>)
    ensures r.Some? <==> |author| > 0 && IsUserChar(author[0])
    ensures r.Some? ==> 0 < r.value <= |author|
                        && (forall i :: 0 <= i < r.value ==> IsUserChar(author[i]))
                        && (r.value == |author| || !IsUserChar(author[r.value]))
  {
    var n := UserRun(author, 0);
    if n == 0 then None else Some(n)
  }

  /** The test `fetch_pms` applies before handing a message to `process_pm`. */
  predicate Accepts(subject: string, msg: Message): (ok: bool)
    ensures ok <==> msg.subject == subject && |msg.author| > 0 && IsUserChar(msg.author[0])
  {
    msg.subject == subject && UserMatch(msg.author).Some?
  }

  /** `flairs[key] or ''`. */
  function FlairText(entry: Option<string>): string {
    entry.GetOr("")
  }

  /** How `process_pm` finds the class key in a message body. The bot uses
      `ClassPattern.ExtractKey`; the run logic below is stated for any key finder, so that
      its proofs do not depend on how the search works. */
  type KeyFinder = string -> Option<string>

  /** The effects of `process_pm` on one message read at time `now`, or `None` when the
      body holds no class key and `.group()` raises before any effect. */
  function PmActions(s: Settings, flairs: Table, keyOf: KeyFinder, msg: Message, now: string): (r: Option<seq<Action>>)
    ensures r.None? <==> keyOf(msg.body).None?
    ensures r.Some? ==> |r.value| > 0 && r.value[|r.value| - 1] == MarkRead(msg.id)
  {
    match keyOf(msg.body)
    case None => None
    case Some(key) =>
      var flair :=
        if key in flairs then
          var text := FlairText(flairs[key]);
          [SetFlair(s.subreddit, msg.author, text, key)]
          + (if s.logging then [AppendLog(msg.author, text, key, now)] else [])
        else [];
      Some(flair + [MarkRead(msg.id)])
  }

  /** A message that passes the filter and whose body holds no class key: `process_pm`
      raises on it and the run ends there. */
  predicate Crashes(s: Settings, keyOf: KeyFinder, msg: Message) {
    Accepts(s.subject, msg) && keyOf(msg.body).None?
  }

  /** What one iteration of the loop in `fetch_pms` does with a message: nothing when the
      filter rejects it, otherwise the effects of `process_pm`, or `None` when it raises. */
  function Step(s: Settings, flairs: Table, keyOf: KeyFinder, msg: Message, now: string): (r: Option<seq<Action>>)
    ensures r.None? <==> Crashes(s, keyOf, msg)
    ensures r.Some? && !Accepts(s.subject, msg) ==> r.value == []
    ensures r.Some? && Accepts(s.subject, msg) ==> |r.value| > 0 && r.value[|r.value| - 1] == MarkRead(msg.id)
  {
    if Accepts(s.subject, msg) then PmActions(s, flairs, keyOf, msg, now) else Some([])
  }

  /** The iterations of the loop, one per message of the inbox. */
  function Steps(s: Settings, flairs: Table, keyOf: KeyFinder, inbox: seq<Message>, clock: seq<string>): (r: seq<Option<seq<Action>>>)
    requires |clock| == |inbox|
    ensures |r| == |inbox|
    ensures forall j :: 0 <= j < |inbox| ==> r[j] == Step(s, flairs, keyOf, inbox[j], clock[j])
  {
    seq(|inbox|, j requires 0 <= j < |inbox| => Step(s, flairs, keyOf, inbox[j], clock[j]))
  }

  /** The effects of one pass of `fetch_pms` over the inbox, and the position of the
      message the pass died on, if it did. */
  datatype Run = Run(actions: seq<Action>, crashedAt: Option<nat>)

  /** Running the iterations in order: their effects accumulate until the first one that
      raises, which ends the pass. */
  function Trace(steps: seq<Option<seq<Action>>>): (r: Run)
    ensures r.crashedAt.None? <==> forall j :: 0 <= j < |steps| ==> steps[j].Some?
    ensures r.crashedAt.Some? ==>
      && r.crashedAt.value < |steps|
      && steps[r.crashedAt.value].None?
      && forall j :: 0 <= j < r.crashedAt.value ==> steps[j].Some?
    decreases |steps|
  {
    if steps == [] then Run([], None)
    else
      var n := |steps| - 1;
      var prev := Trace(steps[..n]);
      if prev.crashedAt.Some? then prev
      else
        match steps[n]
        case None => Run(prev.actions, Some(n))
        case Some(acts) => Run(prev.actions + acts, None)
  }

  /** One pass of `fetch_pms` over the inbox. It dies exactly on the first message that
      passes the filter but holds no class key; without such a message it handles the
      whole inbox. */
  function RunInbox(s: Settings, flairs: Table, keyOf: KeyFinder, inbox: seq<Message>, clock: seq<string>): (r: Run)
    requires |clock| == |inbox|
    ensures r.crashedAt.None? <==> forall j :: 0 <= j < |inbox| ==> !Crashes(s, keyOf, inbox[j])
    ensures r.crashedAt.Some? ==>
      && r.crashedAt.value < |inbox|
      && Crashes(s, keyOf, inbox[r.crashedAt.value])
      && forall j :: 0 <= j < r.crashedAt.value ==> !Crashes(s, keyOf, inbox[j])
  {
    Trace(Steps(s, flairs, keyOf, inbox, clock))
  }

  /** One more iteration of a pass that has not died yet. */
  lemma TraceStep(steps: seq<Option<seq<Action>>>, i: nat)
    requires i < |steps| && Trace(steps[..i]).crashedAt.None?
    ensures steps[i].None? ==> Trace(steps[..i + 1]) == Run(Trace(steps[..i]).actions, Some(i))
    ensures steps[i].Some? ==> Trace(steps[..i + 1]) == Run(Trace(steps[..i]).actions + steps[i].value, None)
  {
    assert steps[..i + 1][..i] == steps[..i];
  }

  /** Once a pass has died on a message, later messages change nothing. */
  lemma {:induction false} CrashIsFinal(steps: seq<Option<seq<Action>>>, m: nat)
    requires m <= |steps| && Trace(steps[..m]).crashedAt.Some?
    ensures Trace(steps) == Trace(steps[..m])
    decreases |steps| - m
  {
    if m < |steps| {
      var n := |steps| - 1;
      CrashIsFinal(steps[..n], m);
      assert steps[..n][..m] == steps[..m];
    } else {
      assert steps[..m] == steps;
    }
  }

  /** How the process ended: the flair table could not be loaded, a message crashed
      `process_pm`, or the pass finished and `sys.exit()` was called. */
  datatype Outcome = TableError(row: nat) | Crashed(index: nat) | Exited

  class FlairBot {
    const settings: Settings
    /** The key finder of `process_pm`. */
    const keyOf: KeyFinder
    var flairs: Table
    /** Every effect so far, in order. */
    var actions: seq<Action>

    /** The part of `__init__` that concerns the decision logic. */
    constructor (conf: Conf)
      ensures settings == SettingsOf(conf)
      ensures settings.logging <==> conf.logging != "False"
      ensures keyOf == ExtractKey
      ensures flairs == map[] && actions == []
    {
      settings := SettingsOf(conf);
      keyOf := ExtractKey;
      flairs := map[];
      actions := [];
    }

    /** `get_flairs`: load the table from the rows; an empty row raises and the table is
        left as it was. */
    method GetFlairs(rows: seq<Row>) returns (loaded: Loaded)
      modifies this`flairs
      ensures loaded.EmptyRow? <==> !AllNonEmpty(rows)
      ensures loaded.Loaded? ==> flairs == TableOf(rows)
      ensures loaded.EmptyRow? ==> flairs == old(flairs)
    {
      loaded := BuildTable(rows);
      if loaded.Loaded? {
        flairs := loaded.table;
      }
    }

    /** `process_pm`: extract the class key, set the flair and log it when the key is in
        the table, then mark the message read. Returns false where `.group()` raises. */
    method ProcessPm(msg: Message, now: string) returns (ok: bool)
      modifies this`actions
      ensures ok == PmActions(settings, flairs, keyOf, msg, now).Some?
      ensures actions == old(actions) + PmActions(settings, flairs, keyOf, msg, now).GetOr([])
    {
      var flairClass := keyOf(msg.body);
      if flairClass.None? {
        return false;
      }
      var key := flairClass.value;
      if key in flairs {
        var text := FlairText(flairs[key]);
        actions := actions + [SetFlair(settings.subreddit, msg.author, text, key)];
        if settings.logging {
          actions := actions + [AppendLog(msg.author, text, key, now)];
        }
      }
      actions := actions + [MarkRead(msg.id)];
      return true;
    }

    /** One iteration of the loop in `fetch_pms`: a message that passes the filter goes
        to `process_pm`; any other is skipped. Returns false where `process_pm` raises. */
    method Handle(msg: Message, now: string) returns (ok: bool)
      modifies this`actions
      ensures ok == Step(settings, flairs, keyOf, msg, now).Some?
      ensures actions == old(actions) + Step(settings, flairs, keyOf, msg, now).GetOr([])
    {
      var author := msg.author;
      var validUser := UserMatch(author);
      if msg.subject == settings.subject && validUser.Some? {
        ok := ProcessPm(msg, now);
      } else {
        ok := true;
        assert actions + [] == actions;
      }
    }

    /** `fetch_pms`: hand every unread message that passes the filter to `process_pm`, in
        inbox order. Returns the position of the message that crashed the pass, if any. */
    method FetchPms(inbox: seq<Message>, clock: seq<string>) returns (crashedAt: Option<nat>)
      requires |clock| == |inbox|
      modifies this`actions
      ensures var r := RunInbox(settings, flairs, keyOf, inbox, clock);
        actions == old(actions) + r.actions && crashedAt == r.crashedAt
    {
      ghost var steps := Steps(settings, flairs, keyOf, inbox, clock);
      var i := 0;
      while i < |inbox|
        invariant 0 <= i <= |inbox|
        invariant Trace(steps[..i]).crashedAt.None?
        invariant actions == old(actions) + Trace(steps[..i]).actions
      {
        ghost var before := actions;
        var ok := Handle(inbox[i], clock[i]);
        PassStep(steps, i, old(actions), before, actions, ok);
        if !ok {
          return Some(i);
        }
        i := i + 1;
      }
      assert steps[..i] == steps;
      return None;
    }
  }

  /** One iteration of `fetch_pms` in terms of the pass: if the message goes through, the
      effects so far are those of one more iteration; if it raises, the pass ends there. */
  lemma PassStep(steps: seq<Option<seq<Action>>>, i: nat, base: seq<Action>,
                 before: seq<Action>, after: seq<Action>, ok: bool)
    requires i < |steps| && Trace(steps[..i]).crashedAt.None?
    requires before == base + Trace(steps[..i]).actions
    requires ok == steps[i].Some? && after == before + steps[i].GetOr([])
    ensures ok ==> Trace(steps[..i + 1]).crashedAt.None? && after == base + Trace(steps[..i + 1]).actions
    ensures !ok ==> Trace(steps) == Run(Trace(steps[..i]).actions, Some(i)) && after == before
  {
    TraceStep(steps, i);
    if ok {
      AppendAssoc(base, Trace(steps[..i]).actions, steps[i].value);
    } else {
      CrashIsFinal(steps, i + 1);
    }
  }

  lemma AppendAssoc(a: seq<Action>, b: seq<Action>, c: seq<Action>)
    ensures (a + b) + c == a + (b + c)
  {
  }

  /** `FlairBot()`: the constructor reads the settings, logs in, loads the table and
      processes the inbox once. */
  method StartBot(conf: Conf, rows: seq<Row>, inbox: seq<Message>, clock: seq<string>)
      returns (bot: FlairBot, outcome: Outcome)
    requires |clock| == |inbox|
    ensures bot.settings == SettingsOf(conf) && bot.keyOf == ExtractKey
    ensures !AllNonEmpty(rows) ==> outcome.TableError? && bot.actions == []
    ensures AllNonEmpty(rows) ==>
      var r := RunInbox(SettingsOf(conf), TableOf(rows), ExtractKey, inbox, clock);
      && bot.flairs == TableOf(rows)
      && bot.actions == r.actions
      && outcome == (if r.crashedAt.Some? then Crashed(r.crashedAt.value) else Exited)
  {
    bot := new FlairBot(conf);
    var loaded := bot.GetFlairs(rows);
    if loaded.EmptyRow? {
      return bot, TableError(loaded.index);
    }
    var crashedAt := bot.FetchPms(inbox, clock);
    outcome := if crashedAt.Some? then Crashed(crashedAt.value) else Exited;
  }
}
