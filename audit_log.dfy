/** The line `log` appends to the log file for every flair it sets. The wall-clock reading
    (`strftime("%Y-%m-%d %H:%M:%S", gmtime())`) is passed in as `now`. */
module AuditLog {

  const USER_LABEL: string := "user: "
  const CLASS_LABEL: string := " | class(es): "
  const TEXT_LABEL: string := " | text: "
  const TIME_LABEL: string := " @ "

  /** The log line for one flair: the text segment appears only when the text is not
      empty. */
  function LogLine(user: string, text: string, cls: string, now: string): (line: string)
    ensures USER_LABEL + user + CLASS_LABEL + cls <= line
    ensures var tail := TIME_LABEL + now + "\n";
      |tail| <= |line| && line[|line| - |tail|..] == tail
    ensures |text| > 0 <==>
      |line| > |USER_LABEL + user + CLASS_LABEL + cls| + |TIME_LABEL + now + "\n"|
  {
    USER_LABEL + user + CLASS_LABEL + cls
    + (if |text| > 0 then TEXT_LABEL + text else "")
    + TIME_LABEL + now + "\n"
  }

  predicate NoNewline(s: string) {
    forall i :: 0 <= i < |s| ==> s[i] != '\n'
  }

  /** Each entry is exactly one line: when no field holds a line break, the only one in
      the entry is the one that ends it. */
  lemma LogLineIsOneLine(user: string, text: string, cls: string, now: string)
    requires NoNewline(user) && NoNewline(text) && NoNewline(cls) && NoNewline(now)
    ensures var line := LogLine(user, text, cls, now);
      |line| > 0 && line[|line| - 1] == '\n' && NoNewline(line[..|line| - 1])
  {
    var line := LogLine(user, text, cls, now);
    var body := USER_LABEL + user + CLASS_LABEL + cls
                + (if |text| > 0 then TEXT_LABEL + text else "") + TIME_LABEL + now;
    assert line == body + "\n";
    assert line[..|line| - 1] == body;
    NoNewlineConcat(USER_LABEL, user);
    NoNewlineConcat(USER_LABEL + user, CLASS_LABEL);
    NoNewlineConcat(USER_LABEL + user + CLASS_LABEL, cls);
    var seg := if |text| > 0 then TEXT_LABEL + text else "";
    if |text| > 0 {
      NoNewlineConcat(TEXT_LABEL, text);
    }
    NoNewlineConcat(USER_LABEL + user + CLASS_LABEL + cls, seg);
    NoNewlineConcat(USER_LABEL + user + CLASS_LABEL + cls + seg, TIME_LABEL);
    NoNewlineConcat(USER_LABEL + user + CLASS_LABEL + cls + seg + TIME_LABEL, now);
  }

  lemma NoNewlineConcat(a: string, b: string)
    requires NoNewline(a) && NoNewline(b)
    ensures NoNewline(a + b)
  {
    forall i | 0 <= i < |a + b| ensures (a + b)[i] != '\n' {
      if i >= |a| {
        assert (a + b)[i] == b[i - |a|];
      }
    }
  }

  /** The entry records the flair text: for the same user, class and time, two entries
      are equal only when the texts are, so an empty text (no segment) and any other text
      never produce the same line. */
  lemma LogLineRecordsText(user: string, cls: string, now: string, text1: string, text2: string)
    requires LogLine(user, text1, cls, now) == LogLine(user, text2, cls, now)
    ensures text1 == text2
  {
    var head := USER_LABEL + user + CLASS_LABEL + cls;
    var tail := TIME_LABEL + now + "\n";
    var seg1 := if |text1| > 0 then TEXT_LABEL + text1 else "";
    var seg2 := if |text2| > 0 then TEXT_LABEL + text2 else "";
    assert LogLine(user, text1, cls, now) == head + seg1 + tail;
    assert LogLine(user, text2, cls, now) == head + seg2 + tail;
    assert |seg1| == |seg2|;
    assert seg1 == (head + seg1 + tail)[|head|..|head| + |seg1|];
    assert seg2 == (head + seg2 + tail)[|head|..|head| + |seg2|];
    if |text1| > 0 {
      assert text1 == seg1[|TEXT_LABEL|..];
      assert text2 == seg2[|TEXT_LABEL|..];
    }
  }
}
