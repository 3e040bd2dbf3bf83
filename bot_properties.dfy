/** What one pass of `fetch_pms` does, stated against reference definitions of what
    each message earns: the flair calls, the log entries and the read marks. */
module BotProperties {
  import opened Wrappers
  import opened FlairTable
  import opened ClassPattern
  import opened AuditLog
  import opened Bot

  /** The flair call a message earns: it passes the filter, its body holds a class key,
      and the key is in the table. The text is the table's text, or '' when it has none. */
  function EarnedFlair(s: Settings, flairs: Table, keyOf: KeyFinder, msg: Message): (e: Option<Action>)
    ensures e.Some? ==> e.value.SetFlair? && Accepts(s.subject, msg)
    ensures e.Some? ==> keyOf(msg.body) == Some(e.value.cls) && e.value.cls in flairs
                        && e.value.subreddit == s.subreddit && e.value.user == msg.author
                        && e.value.text == FlairText(flairs[e.value.cls])
  {
    if Accepts(s.subject, msg) && keyOf(msg.body).Some? && keyOf(msg.body).value in flairs then
      var key := keyOf(msg.body).value;
      Some(SetFlair(s.subreddit, msg.author, FlairText(flairs[key]), key))
    else None
  }

  /** The log entry that mirrors a flair call made at time `now`. */
  function LogOf(flair: Action, now: string): (a: Action)
    requires flair.SetFlair?
    ensures a.AppendLog? && LineOf(a) == LogLine(flair.user, flair.text, flair.cls, now)
  {
    AppendLog(flair.user, flair.text, flair.cls, now)
  }

  /** The calls of kind `k` a message is due when the bot reads it at time `now`: its
      earned flair call; the log entry mirroring it when logging is on; and a read mark
      when it passes the filter. */
  function Due(k: Kind, s: Settings, flairs: Table, keyOf: KeyFinder, msg: Message, now: string): (r: seq<Action>)
    ensures |r| <= 1
    ensures forall a :: a in r ==> KindOf(a) == k
  {
    match k
    case FlairCall =>
      var e := EarnedFlair(s, flairs, keyOf, msg);
      if e.Some? then [e.value] else []
    case LogCall =>
      var e := EarnedFlair(s, flairs, keyOf, msg);
      if s.logging && e.Some? then [LogOf(e.value, now)] else []
    case ReadCall => if Accepts(s.subject, msg) then [MarkRead(msg.id)] else []
  }

  /** The calls of kind `k` due for each message of the inbox. */
  function DueAll(k: Kind, s: Settings, flairs: Table, keyOf: KeyFinder, inbox: seq<Message>, clock: seq<string>): (r: seq<seq<Action>>)
    requires |clock| == |inbox|
    ensures |r| == |inbox|
    ensures forall j :: 0 <= j < |inbox| ==> r[j] == Due(k, s, flairs, keyOf, inbox[j], clock[j])
  {
    seq(|inbox|, j requires 0 <= j < |inbox| => Due(k, s, flairs, keyOf, inbox[j], clock[j]))
  }

  /** The pieces, one after the other. */
  function Flatten(xss: seq<seq<Action>>): seq<Action>
    decreases |xss|
  {
    if xss == [] then [] else Flatten(xss[..|xss| - 1]) + xss[|xss| - 1]
  }

  /** Each log entry records the user, text and class of the flair call at the same position. */
  ghost predicate Mirrors(fs: seq<Action>, ls: seq<Action>) {
    && |fs| == |ls|
    && forall i :: 0 <= i < |fs| ==>
         fs[i].SetFlair? && ls[i].AppendLog? &&
         ls[i].user == fs[i].user && ls[i].text == fs[i].text && ls[i].cls == fs[i].cls
  }

  /** How many messages a pass handles to the end: all of them, or those before the one it
      died on. */
  function Handled(r: Run, total: nat): nat {
    r.crashedAt.GetOr(total)
  }

  lemma CallsOne(a: Action, k: Kind)
    ensures Calls([a], k) == if KindOf(a) == k then [a] else []
  {
    assert [a][..0] == [];
  }

  /** Filtering by kind distributes over concatenation. */
  lemma {:induction false} CallsAppend(a: seq<Action>, b: seq<Action>, k: Kind)
    ensures Calls(a + b, k) == Calls(a, k) + Calls(b, k)
    decreases |b|
  {
    if b == [] {
      assert a + b == a;
    } else {
      var n := |b| - 1;
      CallsAppend(a, b[..n], k);
      assert (a + b)[..|a + b| - 1] == a + b[..n];
    }
  }

  /** Filtering keeps every action of its kind, as often as it occurs. */
  lemma {:induction false} CallsCount(acts: seq<Action>, a: Action)
    ensures multiset(Calls(acts, KindOf(a)))[a] == multiset(acts)[a]
    decreases |acts|
  {
    if acts != [] {
      var n := |acts| - 1;
      CallsCount(acts[..n], a);
      assert acts == acts[..n] + [acts[n]];
    }
  }

  /** An action is in the pieces put together exactly when it is in one of them. */
  lemma {:induction false} FlattenHas(xss: seq<seq<Action>>, a: Action)
    ensures a in Flatten(xss) <==> exists j :: 0 <= j < |xss| && a in xss[j]
    decreases |xss|
  {
    if xss != [] {
      var n := |xss| - 1;
      FlattenHas(xss[..n], a);
      if a in xss[n] {
        assert a in Flatten(xss);
      }
      if exists j :: 0 <= j < n && a in xss[..n][j] {
        var j :| 0 <= j < n && a in xss[..n][j];
        assert a in xss[j];
      }
    }
  }

  /** Only piece `i` holds `a`, so that is how often the whole holds it. */
  lemma {:induction false} FlattenCount(xss: seq<seq<Action>>, a: Action, i: nat)
    requires forall j :: 0 <= j < |xss| && j != i ==> multiset(xss[j])[a] == 0
    ensures multiset(Flatten(xss))[a] == if i < |xss| then multiset(xss[i])[a] else 0
    decreases |xss|
  {
    if xss != [] {
      var n := |xss| - 1;
      var init := xss[..n];
      forall j | 0 <= j < n && j != i
        ensures multiset(init[j])[a] == 0
      {
        assert init[j] == xss[j];
      }
      FlattenCount(init, a, i);
      assert multiset(Flatten(xss)) == multiset(Flatten(init)) + multiset(xss[n]);
    }
  }

  /** Pieces that mirror one another pairwise put together into a whole that mirrors. */
  lemma {:induction false} FlattenMirrors(fs: seq<seq<Action>>, ls: seq<seq<Action>>)
    requires |fs| == |ls|
    requires forall j :: 0 <= j < |fs| ==> Mirrors(fs[j], ls[j])
    ensures Mirrors(Flatten(fs), Flatten(ls))
    decreases |fs|
  {
    if fs != [] {
      var n := |fs| - 1;
      FlattenMirrors(fs[..n], ls[..n]);
      var a, b := Flatten(fs[..n]), Flatten(ls[..n]);
      assert forall i :: |a| <= i < |a| + |fs[n]| ==> (a + fs[n])[i] == fs[n][i - |a|];
      assert forall i :: |b| <= i < |b| + |ls[n]| ==> (b + ls[n])[i] == ls[n][i - |b|];
    }
  }

  /** Empty pieces put together are empty. */
  lemma {:induction false} FlattenNone(xss: seq<seq<Action>>)
    requires forall j :: 0 <= j < |xss| ==> xss[j] == []
    ensures Flatten(xss) == []
    decreases |xss|
  {
    if xss != [] {
      FlattenNone(xss[..|xss| - 1]);
    }
  }

  /** A pass that has not died makes, of each kind, the calls its iterations make, in order. */
  lemma {:induction false} TraceCalls(steps: seq<Option<seq<Action>>>, want: seq<seq<Action>>, k: Kind)
    requires |want| == |steps| && Trace(steps).crashedAt.None?
    requires forall j :: 0 <= j < |steps| ==> steps[j].Some? ==> Calls(steps[j].value, k) == want[j]
    ensures Calls(Trace(steps).actions, k) == Flatten(want)
    decreases |steps|
  {
    if steps != [] {
      var n := |steps| - 1;
      assert steps[..n + 1] == steps;
      TraceStep(steps, n);
      TraceCalls(steps[..n], want[..n], k);
      CallsAppend(Trace(steps[..n]).actions, steps[n].value, k);
    }
  }

  /** One message: when the handler does not raise, the message gets exactly the calls
      it is due. */
  lemma StepCalls(s: Settings, flairs: Table, keyOf: KeyFinder, msg: Message, now: string, k: Kind)
    requires Step(s, flairs, keyOf, msg, now).Some?
    ensures Calls(Step(s, flairs, keyOf, msg, now).value, k) == Due(k, s, flairs, keyOf, msg, now)
  {
    if Accepts(s.subject, msg) {
      var key := keyOf(msg.body).value;
      if key in flairs {
        HandledCalls(s, SetFlair(s.subreddit, msg.author, FlairText(flairs[key]), key), msg.id, now, k);
      } else {
        CallsOne(MarkRead(msg.id), k);
      }
    }
  }

  /** The calls `process_pm` makes for a message whose key is in the table, kind by kind. */
  lemma HandledCalls(s: Settings, flair: Action, id: nat, now: string, k: Kind)
    requires flair.SetFlair?
    ensures var log := if s.logging then [LogOf(flair, now)] else [];
      Calls([flair] + log + [MarkRead(id)], k) ==
        match k
        case FlairCall => [flair]
        case LogCall => log
        case ReadCall => [MarkRead(id)]
  {
    var log := if s.logging then [LogOf(flair, now)] else [];
    CallsOne(flair, k);
    CallsOne(MarkRead(id), k);
    if s.logging {
      CallsOne(log[0], k);
    }
    CallsAppend([flair] + log, [MarkRead(id)], k);
    CallsAppend([flair], log, k);
  }

  /** A pass ends with the effects of the messages it handled, and no others: the message
      it died on and everything after it are left unread. */
  lemma PassPrefix(s: Settings, flairs: Table, keyOf: KeyFinder, inbox: seq<Message>, clock: seq<string>) returns (n: nat)
    requires |clock| == |inbox|
    ensures var r := RunInbox(s, flairs, keyOf, inbox, clock);
      var steps := Steps(s, flairs, keyOf, inbox, clock);
      && n <= |inbox|
      && n == Handled(r, |inbox|)
      && Trace(steps[..n]).crashedAt.None?
      && r.actions == Trace(steps[..n]).actions
  {
    var steps := Steps(s, flairs, keyOf, inbox, clock);
    var r := Trace(steps);
    if r.crashedAt.Some? {
      n := r.crashedAt.value;
      TraceStep(steps, n);
      CrashIsFinal(steps, n + 1);
    } else {
      n := |inbox|;
      assert steps[..n] == steps;
    }
  }

  /** The calls of each kind in a pass are those due to the messages it handled, in inbox
      order. */
  lemma PassCalls(s: Settings, flairs: Table, keyOf: KeyFinder, inbox: seq<Message>, clock: seq<string>, k: Kind)
    requires |clock| == |inbox|
    ensures var r := RunInbox(s, flairs, keyOf, inbox, clock);
      var n := Handled(r, |inbox|);
      Calls(r.actions, k) == Flatten(DueAll(k, s, flairs, keyOf, inbox[..n], clock[..n]))
  {
    var steps := Steps(s, flairs, keyOf, inbox, clock);
    var n := PassPrefix(s, flairs, keyOf, inbox, clock);
    var want := DueAll(k, s, flairs, keyOf, inbox[..n], clock[..n]);
    forall j | 0 <= j < n
      ensures steps[..n][j].Some? ==> Calls(steps[..n][j].value, k) == want[j]
    {
      if steps[j].Some? {
        StepCalls(s, flairs, keyOf, inbox[j], clock[j], k);
      }
    }
    TraceCalls(steps[..n], want, k);
  }

  /** A pass sets a flair exactly when one of the messages it handled earns it. */
  lemma PassFlairs(s: Settings, flairs: Table, keyOf: KeyFinder, inbox: seq<Message>, clock: seq<string>)
    requires |clock| == |inbox|
    ensures var r := RunInbox(s, flairs, keyOf, inbox, clock);
      forall a :: a in Calls(r.actions, FlairCall) <==>
        exists j :: 0 <= j < Handled(r, |inbox|) && EarnedFlair(s, flairs, keyOf, inbox[j]) == Some(a)
  {
    var r := RunInbox(s, flairs, keyOf, inbox, clock);
    var n := Handled(r, |inbox|);
    PassCalls(s, flairs, keyOf, inbox, clock, FlairCall);
    var due := DueAll(FlairCall, s, flairs, keyOf, inbox[..n], clock[..n]);
    forall a
      ensures a in Calls(r.actions, FlairCall) <==>
        exists j :: 0 <= j < n && EarnedFlair(s, flairs, keyOf, inbox[j]) == Some(a)
    {
      FlattenHas(due, a);
      forall j | 0 <= j < n
        ensures a in due[j] <==> EarnedFlair(s, flairs, keyOf, inbox[j]) == Some(a)
      {
      }
    }
  }

  /** The log entries of a pass are exactly the lines for the flairs earned by the messages
      it handled, each stamped with the time its message was read, and only when logging is
      on. */
  lemma PassLogLines(s: Settings, flairs: Table, keyOf: KeyFinder, inbox: seq<Message>, clock: seq<string>)
    requires |clock| == |inbox|
    ensures var r := RunInbox(s, flairs, keyOf, inbox, clock);
      forall a :: a in Calls(r.actions, LogCall) <==>
        s.logging && exists j :: 0 <= j < Handled(r, |inbox|) && EarnedFlair(s, flairs, keyOf, inbox[j]).Some?
                                 && a == LogOf(EarnedFlair(s, flairs, keyOf, inbox[j]).value, clock[j])
  {
    var r := RunInbox(s, flairs, keyOf, inbox, clock);
    var n := Handled(r, |inbox|);
    PassCalls(s, flairs, keyOf, inbox, clock, LogCall);
    var due := DueAll(LogCall, s, flairs, keyOf, inbox[..n], clock[..n]);
    forall a
      ensures a in Calls(r.actions, LogCall) <==>
        s.logging && exists j :: 0 <= j < n && EarnedFlair(s, flairs, keyOf, inbox[j]).Some?
                                 && a == LogOf(EarnedFlair(s, flairs, keyOf, inbox[j]).value, clock[j])
    {
      FlattenHas(due, a);
      forall j | 0 <= j < n
        ensures a in due[j] <==> s.logging && EarnedFlair(s, flairs, keyOf, inbox[j]).Some?
                                 && a == LogOf(EarnedFlair(s, flairs, keyOf, inbox[j]).value, clock[j])
      {
      }
    }
  }

  /** When logging is on, the log entries of a pass mirror its flair calls one for one;
      when it is off, the pass writes no log entry. */
  lemma PassLogs(s: Settings, flairs: Table, keyOf: KeyFinder, inbox: seq<Message>, clock: seq<string>)
    requires |clock| == |inbox|
    ensures var r := RunInbox(s, flairs, keyOf, inbox, clock);
      && (s.logging ==> Mirrors(Calls(r.actions, FlairCall), Calls(r.actions, LogCall)))
      && (!s.logging ==> Calls(r.actions, LogCall) == [])
  {
    var r := RunInbox(s, flairs, keyOf, inbox, clock);
    var n := Handled(r, |inbox|);
    PassCalls(s, flairs, keyOf, inbox, clock, FlairCall);
    PassCalls(s, flairs, keyOf, inbox, clock, LogCall);
    var fs := DueAll(FlairCall, s, flairs, keyOf, inbox[..n], clock[..n]);
    var ls := DueAll(LogCall, s, flairs, keyOf, inbox[..n], clock[..n]);
    forall j | 0 <= j < n
      ensures s.logging ==> Mirrors(fs[j], ls[j])
      ensures !s.logging ==> ls[j] == []
    {
      DueMirrors(s, flairs, keyOf, inbox[j], clock[j]);
    }
    if s.logging {
      FlattenMirrors(fs, ls);
    } else {
      FlattenNone(ls);
    }
  }

  /** A message is due a log entry mirroring its flair call when logging is on, and none
      when it is off. */
  lemma DueMirrors(s: Settings, flairs: Table, keyOf: KeyFinder, msg: Message, now: string)
    ensures s.logging ==> Mirrors(Due(FlairCall, s, flairs, keyOf, msg, now), Due(LogCall, s, flairs, keyOf, msg, now))
    ensures !s.logging ==> Due(LogCall, s, flairs, keyOf, msg, now) == []
  {
  }

  /** With distinct message ids, a pass marks every message it handled and passed the
      filter read exactly once, and no other message. */
  lemma PassMarksRead(s: Settings, flairs: Table, keyOf: KeyFinder, inbox: seq<Message>, clock: seq<string>)
    requires |clock| == |inbox|
    requires forall i, j :: 0 <= i < j < |inbox| ==> inbox[i].id != inbox[j].id
    ensures var r := RunInbox(s, flairs, keyOf, inbox, clock);
      forall i :: 0 <= i < |inbox| ==>
        multiset(r.actions)[MarkRead(inbox[i].id)] ==
          if i < Handled(r, |inbox|) && Accepts(s.subject, inbox[i]) then 1 else 0
  {
    var r := RunInbox(s, flairs, keyOf, inbox, clock);
    var n := Handled(r, |inbox|);
    PassCalls(s, flairs, keyOf, inbox, clock, ReadCall);
    var due := DueAll(ReadCall, s, flairs, keyOf, inbox[..n], clock[..n]);
    forall i | 0 <= i < |inbox|
      ensures multiset(r.actions)[MarkRead(inbox[i].id)] ==
        if i < n && Accepts(s.subject, inbox[i]) then 1 else 0
    {
      var a := MarkRead(inbox[i].id);
      CallsCount(r.actions, a);
      forall j | 0 <= j < |due|
        ensures multiset(due[j])[a] == if j == i && Accepts(s.subject, inbox[i]) then 1 else 0
      {
        DueReadCount(s, flairs, keyOf, inbox[j], clock[j], inbox[i].id);
      }
      FlattenCount(due, a, i);
    }
  }

  /** A message is due one read mark for its own id if it passes the filter, and none for
      any other id. */
  lemma DueReadCount(s: Settings, flairs: Table, keyOf: KeyFinder, msg: Message, now: string, x: nat)
    ensures multiset(Due(ReadCall, s, flairs, keyOf, msg, now))[MarkRead(x)] ==
      if Accepts(s.subject, msg) && msg.id == x then 1 else 0
  {
  }
}
