/**
  Forwarding a script's queued messages to the host log. A message is
  forwarded when its text is non-null and its timestamp is strictly newer
  than the record's message time as it stood before the update; the
  record's message time then moves to the newest timestamp forwarded.
 */
module ScriptMessages {
  import opened HostInterface

  /** Whether `m` is forwarded when the record's message time is `since`. */
  predicate IsNew(m: Message, since: nat)
  {
    m.text.Some? && m.time > since
  }

  /** The messages forwarded, in queue order. */
  function Kept(messages: seq<Message>, since: nat): (kept: seq<Message>)
    ensures |kept| <= |messages|
    ensures forall m :: m in kept ==> m in messages && IsNew(m, since)
  {
    if |messages| == 0 then []
    else
      var init := Kept(messages[..|messages| - 1], since);
      var m := messages[|messages| - 1];
      if IsNew(m, since) then init + [m] else init
  }

  /** The largest of `since` and the timestamps of `kept`. */
  function LatestTime(since: nat, kept: seq<Message>): nat
  {
    if |kept| == 0 then since
    else
      var t := LatestTime(since, kept[..|kept| - 1]);
      var m := kept[|kept| - 1];
      if m.time > t then m.time else t
  }

  /** The log lines for the forwarded messages, tagged with the mod's name. */
  function Announced(modName: string, kept: seq<Message>): seq<LogEntry>
    requires forall m :: m in kept ==> m.text.Some?
  {
    seq(|kept|, i requires 0 <= i < |kept| => ScriptMessage(modName, kept[i].text.value))
  }

  /**
    The inner loop of a script's update: forwards the new messages of
    `messages` and keeps the running maximum of their timestamps, starting
    from `messageTime`.
   */
  method ProcessMessages(modName: string, messageTime: nat, messages: seq<Message>)
    returns (logged: seq<LogEntry>, latest: nat)
    ensures logged == Announced(modName, Kept(messages, messageTime))
    ensures latest == LatestTime(messageTime, Kept(messages, messageTime))
  {
    logged, latest := [], messageTime;
    for i := 0 to |messages|
      invariant logged == Announced(modName, Kept(messages[..i], messageTime))
      invariant latest == LatestTime(messageTime, Kept(messages[..i], messageTime))
    {
      var m := messages[i];
      ghost var before := Kept(messages[..i], messageTime);
      assert messages[..i + 1][..i] == messages[..i];
      if m.text.Some? && m.time > messageTime {
        assert Kept(messages[..i + 1], messageTime) == before + [m];
        assert (before + [m])[..|before|] == before;
        latest := if m.time > latest then m.time else latest;
        logged := logged + [ScriptMessage(modName, m.text.value)];
      }
    }
    assert messages[..|messages|] == messages;
  }

  /** Every message that is new at `since` is forwarded, and nothing else. */
  lemma {:induction false} KeptIsComplete(messages: seq<Message>, since: nat, m: Message)
    ensures m in Kept(messages, since) <==> m in messages && IsNew(m, since)
  {
    if |messages| > 0 {
      var init := messages[..|messages| - 1];
      KeptIsComplete(init, since, m);
      assert messages == init + [messages[|messages| - 1]];
    }
  }

  /** Forwarded messages keep their queue order and number: a split queue forwards its parts in turn. */
  lemma {:induction false} KeptAppend(a: seq<Message>, b: seq<Message>, since: nat)
    ensures Kept(a + b, since) == Kept(a, since) + Kept(b, since)
    decreases |b|
  {
    if |b| > 0 {
      var n := |b| - 1;
      assert a + b == (a + b[..n]) + [b[n]] && b == b[..n] + [b[n]];
      KeptLast(a + b[..n], b[n], since);
      KeptLast(b[..n], b[n], since);
      KeptAppend(a, b[..n], since);
    } else {
      assert a + b == a;
    }
  }

  /** A message added at the back of a queue is forwarded after the others, if it is new. */
  lemma KeptLast(messages: seq<Message>, m: Message, since: nat)
    ensures Kept(messages + [m], since) == Kept(messages, since) + (if IsNew(m, since) then [m] else [])
  {
    assert (messages + [m])[..|messages|] == messages;
  }

  /**
    The new message time never falls below the old one, is at least every
    forwarded timestamp, and is either the old time or one of those
    timestamps: it is their maximum, not the last one.
   */
  lemma {:induction false} LatestTimeIsMaximum(since: nat, kept: seq<Message>)
    ensures LatestTime(since, kept) >= since
    ensures forall m :: m in kept ==> m.time <= LatestTime(since, kept)
    ensures LatestTime(since, kept) == since ||
            exists m :: m in kept && m.time == LatestTime(since, kept)
  {
    if |kept| > 0 {
      var init := kept[..|kept| - 1];
      LatestTimeIsMaximum(since, init);
      assert kept == init + [kept[|kept| - 1]];
    }
  }

  /**
    Messages stamped 3, 7, 5 arriving at message time 0 are all forwarded
    (the filter compares with the old time, not the running maximum), and
    the message time becomes 7.
   */
  lemma MessageTimeExample(modName: string, a: string, b: string, c: string, messages: seq<Message>)
    requires messages == [Message(Some(a), 3), Message(Some(b), 7), Message(Some(c), 5)]
    ensures Kept(messages, 0) == messages
    ensures Announced(modName, Kept(messages, 0))
         == [ScriptMessage(modName, a), ScriptMessage(modName, b), ScriptMessage(modName, c)]
    ensures LatestTime(0, Kept(messages, 0)) == 7
  {
    assert messages[..2][..1] == messages[..1];
    assert messages[..2] == messages[..1] + [messages[1]];
    assert messages[..3][..2] == messages[..2];
    assert Kept(messages[..1], 0) == messages[..1];
    assert Kept(messages[..2], 0) == messages[..2];
    assert messages[..3] == messages;
    assert LatestTime(0, messages[..1]) == 3;
    assert LatestTime(0, messages[..2]) == 7;
  }

  /** The console lines forwarded: every non-null console message, in order. */
  function ConsoleLog(messages: seq<Option<string>>): (logged: seq<LogEntry>)
    ensures |logged| <= |messages|
    ensures forall e :: e in logged ==> e.ConsoleMessage? && Some(e.text) in messages
    ensures forall s :: Some(s) in messages ==> ConsoleMessage(s) in logged
  {
    if |messages| == 0 then []
    else
      var init := ConsoleLog(messages[..|messages| - 1]);
      var m := messages[|messages| - 1];
      assert messages == messages[..|messages| - 1] + [m];
      if m.Some? then init + [ConsoleMessage(m.value)] else init
  }

  /** Console lines keep the console's order: a split batch logs its parts in turn. */
  lemma {:induction false} ConsoleLogAppend(a: seq<Option<string>>, b: seq<Option<string>>)
    ensures ConsoleLog(a + b) == ConsoleLog(a) + ConsoleLog(b)
    decreases |b|
  {
    if |b| > 0 {
      var n := |b| - 1;
      var tail := if b[n].Some? then [ConsoleMessage(b[n].value)] else [];
      assert ConsoleLog(a + b) == ConsoleLog(a + b[..n]) + tail by {
        assert (a + b)[..|a + b| - 1] == a + b[..n];
        assert (a + b)[|a + b| - 1] == b[n];
      }
      assert ConsoleLog(b) == ConsoleLog(b[..n]) + tail;
      ConsoleLogAppend(a, b[..n]);
    } else {
      assert a + b == a;
    }
  }
}
