/**
 The text protocol between the daemon and its subscribers: cmos_publish in lib/cmos/cmos_pub.c prints a
 message, ctx_handle_line in lib/cmos/cmos_sub.c takes it apart and filters it. Strings are C strings, so
 they hold no NUL.
 */
module CmosMessage {
  import opened Words
  import opened LineReassembly

  const DATA_CAP := 895
  const NAME_CAP := 63

  /** What cmos_publish is given; None is NULL. */
  datatype Message = Message(state: Option<string>, kind: Option<string>, key: Option<string>, value: Option<string>)

  /** A subscription; an empty filter accepts everything. */
  datatype Slot = Slot(topic: string, state: string, kind: string, key: string)

  datatype Call = Call(topic: string, payload: string)

  function Cap(s: string, n: nat): string {
    if |s| <= n then s else s[..n]
  }

  // ---------------------------------------------------------------- printing

  function Labelled(tag: string, field: Option<string>): seq<string> {
    if field.Some? then [tag + field.value] else []
  }

  /** The labelled words of a message. */
  function Labels(m: Message): seq<string> {
    Labelled("state=", m.state) + Labelled("type=", m.kind) + Labelled("key=", m.key)
  }

  /** A message with no label at all is sent as its bare value. */
  function WordsOf(m: Message): seq<string> {
    if m.value.None? then Labels(m)
    else if Labels(m) == [] then [m.value.value]
    else Labels(m) + ["value=" + m.value.value]
  }

  function Spaced(words: seq<string>): string {
    if words == [] then ""
    else if |words| == 1 then words[0]
    else Spaced(words[..|words| - 1]) + " " + words[|words| - 1]
  }

  /** The whole line, as long as the data fits its buffer. */
  function Wire(topic: string, data: string): string {
    "MSG " + topic + " " + data + [NEWLINE]
  }

  lemma TwoWords(a: string, b: string)
    ensures Spaced([a, b]) == a + " " + b
  {
    assert [a, b][..1] == [a];
  }

  lemma FourWords(a: string, b: string, c: string, d: string)
    ensures Spaced([a, b, c, d]) == a + " " + b + " " + c + " " + d
  {
    assert [a, b, c, d][..3] == [a, b, c] && [a, b, c][..2] == [a, b];
    TwoWords(a, b);
  }

  lemma LabelledWords(m: Message)
    requires m.state.Some? && m.kind.Some? && m.key.Some? && m.value.Some?
    ensures WordsOf(m) == ["state=" + m.state.value, "type=" + m.kind.value, "key=" + m.key.value, "value=" + m.value.value]
  {
  }

  lemma KeyAndValue(m: Message)
    requires m.state.None? && m.kind.None? && m.key.Some? && m.value.Some?
    ensures WordsOf(m) == ["key=" + m.key.value, "value=" + m.value.value]
  {
  }

  /** The data as it goes out: with all four fields, with a key and a value, and with a bare value. */
  lemma DataLooks(state: string, kind: string, key: string, value: string)
    ensures Spaced(WordsOf(Message(Some(state), Some(kind), Some(key), Some(value)))) ==
      "state=" + state + " " + ("type=" + kind) + " " + ("key=" + key) + " " + ("value=" + value)
    ensures Spaced(WordsOf(Message(None, None, Some(key), Some(value)))) == "key=" + key + " " + ("value=" + value)
    ensures Spaced(WordsOf(Message(None, None, None, Some(value)))) == value
  {
    LabelledWords(Message(Some(state), Some(kind), Some(key), Some(value)));
    FourWords("state=" + state, "type=" + kind, "key=" + key, "value=" + value);
    KeyAndValue(Message(None, None, Some(key), Some(value)));
    TwoWords("key=" + key, "value=" + value);
  }

  /** One snprintf into the rest of the data buffer. */
  method Append(data: string, text: string) returns (data': string)
    requires |data| <= DATA_CAP
    ensures data' == Cap(data + text, DATA_CAP)
  {
    var space := DATA_CAP - |data|;
    data' := data + if |text| <= space then text else text[..space];
    assert (data + text)[..|data'|] == data';
  }

  lemma CapTwice(a: string, b: string)
    ensures Cap(Cap(a, DATA_CAP) + b, DATA_CAP) == Cap(a + b, DATA_CAP)
  {
    assert |a| > DATA_CAP ==> (Cap(a, DATA_CAP) + b)[..DATA_CAP] == (a + b)[..DATA_CAP];
  }

  /** Adding one labelled word to what is already there. */
  method AppendField(data: string, tag: string, field: Option<string>, ghost words: seq<string>)
    returns (data': string, ghost words': seq<string>)
    requires data == Cap(Spaced(words), DATA_CAP) && (forall i :: 0 <= i < |words| ==> words[i] != "") && tag != ""
    ensures words' == words + Labelled(tag, field) && data' == Cap(Spaced(words'), DATA_CAP)
    ensures forall i :: 0 <= i < |words'| ==> words'[i] != ""
  {
    data', words' := data, words + Labelled(tag, field);
    if field.Some? {
      SpacedNotEmpty(words);
      var text := (if |data| > 0 then " " else "") + (tag + field.value);
      data' := Append(data, text);
      SpacedOneMore(words, tag + field.value);
      CapTwice(Spaced(words), text);
    } else {
      assert words' == words;
    }
  }

  lemma SpacedNotEmpty(words: seq<string>)
    requires forall i :: 0 <= i < |words| ==> words[i] != ""
    ensures Cap(Spaced(words), DATA_CAP) == "" <==> words == []
  {
  }

  lemma SpacedOneMore(words: seq<string>, w: string)
    ensures Spaced(words + [w]) == Spaced(words) + ((if words != [] then " " else "") + w)
  {
    if words == [] {
      assert words + [w] == [w];
      assert Spaced(words) + ("" + w) == w;
    } else {
      assert (words + [w])[..|words|] == words;
      assert Spaced(words) + " " + w == Spaced(words) + (" " + w);
    }
  }

  method PrintLabels(m: Message) returns (data: string, ghost words: seq<string>)
    ensures words == Labels(m) && data == Cap(Spaced(words), DATA_CAP)
    ensures forall i :: 0 <= i < |words| ==> words[i] != ""
  {
    data, words := "", [];
    data, words := AppendField(data, "state=", m.state, words);
    data, words := AppendField(data, "type=", m.kind, words);
    data, words := AppendField(data, "key=", m.key, words);
  }

  /** The data part of cmos_publish: stepwise capping is the same as capping the whole text once. */
  method PrintData(m: Message) returns (data: string)
    ensures data == Cap(Spaced(WordsOf(m)), 895)
  {
    ghost var words;
    data, words := PrintLabels(m);
    if m.value.Some? {
      SpacedNotEmpty(words);
      if |data| > 0 {
        data, words := AppendField(data, "value=", m.value, words);
      } else {
        data := Append("", m.value.value);
        assert "" + m.value.value == m.value.value;
      }
    }
  }

  /** cmos_publish up to the sends. The line buffer is never filled, so no line end is ever cut off. */
  method Print(topic: string, m: Message) returns (line: string)
    requires |topic| <= 63
    ensures line == Wire(topic, Cap(Spaced(WordsOf(m)), 895)) == "MSG " + topic + " " + Cap(Spaced(WordsOf(m)), 895) + "\n"
    ensures |line| <= 964 && line[|line| - 1] == NEWLINE
  {
    var data := PrintData(m);
    line := Cap(Wire(topic, data), LINE_BUF - 1);
  }

  // ---------------------------------------------------------------- taking apart

  datatype Token = Token(text: string, rest: string)

  function Skip(s: string, delims: set<char>): (r: string)
    ensures |r| <= |s|
    ensures r != "" ==> r[0] !in delims
  {
    if s != "" && s[0] in delims then Skip(s[1..], delims) else s
  }

  /** How far a token reaches. */
  function Span(s: string, delims: set<char>): (n: nat)
    ensures n <= |s|
    ensures n < |s| ==> s[n] in delims
    ensures forall i :: 0 <= i < n ==> s[i] !in delims
  {
    if s == "" || s[0] in delims then 0 else 1 + Span(s[1..], delims)
  }

  /** strtok: the next token, and what a following call goes on with. */
  function Strtok(s: string, delims: set<char>): (r: Option<Token>)
    ensures r.Some? ==> r.value.text != "" && |r.value.rest| < |s|
    ensures r.Some? ==> forall i :: 0 <= i < |r.value.text| ==> r.value.text[i] !in delims
  {
    var t := Skip(s, delims);
    if t == "" then None
    else
      var n := Span(t, delims);
      Some(Token(t[..n], if n < |t| then t[n + 1..] else ""))
  }

  const SPACES: set<char> := {' ', '\r', '\n'}
  const ENDS: set<char> := {'\r', '\n'}
  const SPACE: set<char> := {' '}

  function CString(s: string): string {
    s[..Span(s, {'\0'})]
  }

  predicate StartsWith(s: string, p: string) {
    |p| <= |s| && s[..|p|] == p
  }

  /** One word of the data; a later word of the same label wins. */
  function Noted(f: Message, w: string): Message {
    if StartsWith(w, "state=") then f.(state := Some(w[6..]))
    else if StartsWith(w, "type=") then f.(kind := Some(w[5..]))
    else if StartsWith(w, "key=") then f.(key := Some(w[4..]))
    else if StartsWith(w, "value=") then f.(value := Some(w[6..]))
    else f
  }

  const NOTHING := Message(None, None, None, None)

  function ParsedFrom(f: Message, s: string): Message
    decreases |s|
  {
    var t := Strtok(s, SPACE);
    if t.None? then f else ParsedFrom(Noted(f, t.value.text), t.value.rest)
  }

  predicate Accepts(filter: string, field: Option<string>) {
    filter == "" || field == Some(filter)
  }

  predicate Unfiltered(s: Slot) {
    s.state == "" && s.kind == "" && s.key == ""
  }

  function OrEmpty(o: Option<string>): string {
    if o.Some? then o.value else ""
  }

  /** What a slot's callback gets from the data of a message on its topic. */
  function Filtered(slot: Slot, data: string): Option<Call> {
    if Unfiltered(slot) then Some(Call(slot.topic, data))
    else
      var f := ParsedFrom(NOTHING, Cap(data, LINE_BUF - 1));
      if !(Accepts(slot.state, f.state) && Accepts(slot.kind, f.kind) && Accepts(slot.key, f.key)) then None
      else Some(Call(slot.topic, if slot.key != "" then OrEmpty(f.value) else data))
  }

  /** The callback a line leads to, if any. */
  function Handled(slot: Slot, line: string): Option<Call> {
    var cmd := Strtok(CString(line), SPACES);
    if cmd.None? || cmd.value.text != "MSG" then None
    else
      var topic := Strtok(cmd.value.rest, SPACES);
      if topic.None? then None
      else
        var data := Strtok(topic.value.rest, ENDS);
        if data.None? || topic.value.text != slot.topic then None
        else Filtered(slot, data.value.text)
  }

  /** The token loop of ctx_handle_line. */
  method ParseFields(data: string) returns (f: Message)
    ensures f == ParsedFrom(NOTHING, data)
  {
    f := NOTHING;
    var t := Strtok(data, SPACE);
    ghost var left := data;
    while t.Some?
      invariant t == Strtok(left, SPACE)
      invariant ParsedFrom(NOTHING, data) == ParsedFrom(f, left)
      decreases |left|
    {
      f := Noted(f, t.value.text);
      left := t.value.rest;
      t := Strtok(t.value.rest, SPACE);
    }
  }

  /** ctx_handle_line: the call it makes. */
  method HandleLine(slot: Slot, line: string) returns (call: Option<Call>)
    ensures call == Handled(slot, line)
  {
    var cmd := Strtok(CString(line), SPACES);
    if cmd.None? || cmd.value.text != "MSG" {
      return None;
    }
    var topic := Strtok(cmd.value.rest, SPACES);
    if topic.None? {
      return None;
    }
    var data := Strtok(topic.value.rest, ENDS);
    if data.None? {
      return None;
    }
    if topic.value.text != slot.topic {
      return None;
    }
    if slot.state == "" && slot.kind == "" && slot.key == "" {
      return Some(Call(slot.topic, data.value.text));
    }
    var f := ParseFields(Cap(data.value.text, LINE_BUF - 1));
    if slot.state != "" && f.state != Some(slot.state) {
      return None;
    }
    if slot.kind != "" && f.kind != Some(slot.kind) {
      return None;
    }
    if slot.key != "" && f.key != Some(slot.key) {
      return None;
    }
    if slot.key != "" {
      return Some(Call(slot.topic, OrEmpty(f.value)));
    }
    return Some(Call(slot.topic, data.value.text));
  }

  /** cmos_sub_add keeps 63 characters of each name. */
  function Subscribed(topic: string, state: Option<string>, kind: Option<string>, key: Option<string>): Slot {
    Slot(Cap(topic, NAME_CAP), Cap(OrEmpty(state), NAME_CAP), Cap(OrEmpty(kind), NAME_CAP), Cap(OrEmpty(key), NAME_CAP))
  }

  // ---------------------------------------------------------------- printing and taking apart again

  predicate Free(s: string, delims: set<char>) {
    forall i :: 0 <= i < |s| ==> s[i] !in delims
  }

  const UNCLEAN: set<char> := {' ', '\r', '\n', '\0'}

  predicate CleanField(o: Option<string>) {
    o.Some? ==> Free(o.value, UNCLEAN)
  }

  /** Every field free of blanks and line ends, at least one label, and the text fits. */
  predicate Proper(m: Message) {
    && CleanField(m.state) && CleanField(m.kind) && CleanField(m.key) && CleanField(m.value)
    && Labels(m) != [] && |Spaced(WordsOf(m))| <= 895
  }

  predicate ProperTopic(t: string) {
    0 < |t| <= 63 && Free(t, UNCLEAN)
  }

  /** What the subscriber is meant to see: the value if it asked for a key, else the whole data, and only on a match. */
  function Expected(slot: Slot, topic: string, m: Message): Option<Call> {
    if topic == slot.topic && Accepts(slot.state, m.state) && Accepts(slot.kind, m.kind) && Accepts(slot.key, m.key)
    then Some(Call(topic, if slot.key != "" then OrEmpty(m.value) else Spaced(WordsOf(m))))
    else None
  }

  lemma {:induction false} SpanWhole(w: string, rest: string, delims: set<char>)
    requires Free(w, delims) && (rest == "" || rest[0] in delims)
    ensures Span(w + rest, delims) == |w|
  {
    if w != "" {
      assert (w + rest)[1..] == w[1..] + rest;
      SpanWhole(w[1..], rest, delims);
    } else {
      assert w + rest == rest;
    }
  }

  lemma StrtokWord(w: string, d: char, rest: string, delims: set<char>)
    requires w != "" && Free(w, delims) && d in delims
    ensures Strtok(w + [d] + rest, delims) == Some(Token(w, rest))
  {
    var s := w + [d] + rest;
    assert s == w + ([d] + rest) && s[0] == w[0];
    SpanWhole(w, [d] + rest, delims);
    assert Skip(s, delims) == s;
    assert s[..|w|] == w && s[|w| + 1..] == rest;
  }

  lemma StrtokLast(w: string, delims: set<char>)
    requires w != "" && Free(w, delims)
    ensures Strtok(w, delims) == Some(Token(w, ""))
  {
    SpanWhole(w, "", delims);
    assert w + "" == w;
  }

  predicate Wordy(words: seq<string>) {
    forall i :: 0 <= i < |words| ==> words[i] != "" && Free(words[i], UNCLEAN)
  }

  function NotedAll(f: Message, words: seq<string>): Message
    decreases |words|
  {
    if words == [] then f else NotedAll(Noted(f, words[0]), words[1..])
  }

  lemma {:induction false} SpacedFirst(words: seq<string>)
    requires |words| > 1
    ensures Spaced(words) == words[0] + [' '] + Spaced(words[1..])
    decreases |words|
  {
    var n := |words| - 1;
    if n > 1 {
      SpacedFirst(words[..n]);
      assert words[..n][1..] == words[1..][..n - 1];
      assert words[1..][n - 1] == words[n];
      assert words[0] + [' '] + Spaced(words[1..][..n - 1]) + " " + words[n] ==
             words[0] + [' '] + (Spaced(words[1..][..n - 1]) + " " + words[n]);
    } else {
      assert words[..1] == [words[0]] && words[1..] == [words[1]];
    }
  }

  /** The token loop recovers the words. */
  lemma {:induction false} ParsedIsNoted(f: Message, words: seq<string>)
    requires Wordy(words)
    ensures ParsedFrom(f, Spaced(words)) == NotedAll(f, words)
    decreases |words|
  {
    if |words| == 1 {
      StrtokLast(words[0], SPACE);
      assert words[1..] == [];
      assert Strtok("", SPACE) == None;
    } else if |words| > 1 {
      SpacedFirst(words);
      StrtokWord(words[0], ' ', Spaced(words[1..]), SPACE);
      ParsedIsNoted(Noted(f, words[0]), words[1..]);
    }
  }

  lemma NotedLabels(f: Message, s: string)
    ensures Noted(f, "state=" + s) == f.(state := Some(s))
    ensures Noted(f, "type=" + s) == f.(kind := Some(s))
    ensures Noted(f, "key=" + s) == f.(key := Some(s))
    ensures Noted(f, "value=" + s) == f.(value := Some(s))
  {
    assert ("state=" + s)[6..] == s && ("state=" + s)[..6] == "state=";
    assert ("type=" + s)[5..] == s && ("type=" + s)[..5] == "type=" && ("type=" + s)[0] == 't';
    assert ("key=" + s)[4..] == s && ("key=" + s)[..4] == "key=" && ("key=" + s)[0] == 'k';
    assert ("value=" + s)[6..] == s && ("value=" + s)[..6] == "value=" && ("value=" + s)[0] == 'v';
    assert "state="[0] == 's' && "type="[0] == 't' && "key="[0] == 'k';
  }

  lemma {:induction false} NotedConcat(f: Message, a: seq<string>, b: seq<string>)
    ensures NotedAll(f, a + b) == NotedAll(NotedAll(f, a), b)
    decreases |a|
  {
    if a == [] {
      assert a + b == b;
    } else {
      assert (a + b)[1..] == a[1..] + b;
      NotedConcat(Noted(f, a[0]), a[1..], b);
    }
  }

  lemma NotedField(f: Message, tag: string, field: Option<string>)
    ensures NotedAll(f, Labelled(tag, field)) == if field.Some? then Noted(f, tag + field.value) else f
  {
    if field.Some? {
      assert Labelled(tag, field)[1..] == [];
    }
  }

  /** The words of a labelled message say what it is. */
  lemma WordsTell(m: Message)
    requires Labels(m) != []
    ensures NotedAll(NOTHING, WordsOf(m)) == m
  {
    var a, b, c, d := Labelled("state=", m.state), Labelled("type=", m.kind), Labelled("key=", m.key), Labelled("value=", m.value);
    assert WordsOf(m) == a + b + c + d;
    NotedConcat(NOTHING, a + b + c, d);
    NotedConcat(NOTHING, a + b, c);
    NotedConcat(NOTHING, a, b);
    NotedField(NOTHING, "state=", m.state);
    NotedLabels(NOTHING, OrEmpty(m.state));
    var f1 := NOTHING.(state := m.state);
    NotedField(f1, "type=", m.kind);
    NotedLabels(f1, OrEmpty(m.kind));
    var f2 := f1.(kind := m.kind);
    NotedField(f2, "key=", m.key);
    NotedLabels(f2, OrEmpty(m.key));
    var f3 := f2.(key := m.key);
    NotedField(f3, "value=", m.value);
    NotedLabels(f3, OrEmpty(m.value));
  }

  lemma FieldWordy(tag: string, field: Option<string>)
    requires tag != "" && Free(tag, UNCLEAN) && CleanField(field)
    ensures Wordy(Labelled(tag, field))
  {
  }

  lemma LabelsClean(m: Message)
    requires CleanField(m.state) && CleanField(m.kind) && CleanField(m.key)
    ensures Wordy(Labels(m))
  {
    var a, b, c := Labelled("state=", m.state), Labelled("type=", m.kind), Labelled("key=", m.key);
    FieldWordy("state=", m.state);
    FieldWordy("type=", m.kind);
    FieldWordy("key=", m.key);
    WordyConcat(a, b);
    WordyConcat(a + b, c);
  }

  lemma WordsClean(m: Message)
    requires Proper(m)
    ensures Wordy(WordsOf(m)) && WordsOf(m) != []
  {
    LabelsClean(m);
    if m.value.Some? {
      FieldWordy("value=", m.value);
      WordyConcat(Labels(m), ["value=" + m.value.value]);
    }
  }

  lemma WordyConcat(a: seq<string>, b: seq<string>)
    requires Wordy(a) && Wordy(b)
    ensures Wordy(a + b)
  {
  }

  lemma {:induction false} SpacedClean(words: seq<string>)
    requires Wordy(words)
    ensures Free(Spaced(words), {'\r', '\n', '\0'}) && (words != [] ==> Spaced(words) != "")
  {
    if |words| > 1 {
      SpacedClean(words[..|words| - 1]);
    }
  }

  lemma WireIsLine(topic: string, data: string)
    requires ProperTopic(topic) && Free(data, {'\r', '\n', '\0'})
    ensures IsLine(Wire(topic, data)) && CString(Wire(topic, data)) == Wire(topic, data)
  {
    var line := Wire(topic, data);
    assert line[..|line| - 1] == "MSG " + topic + " " + data;
    SpanWhole(line, "", {'\0'});
    assert line + "" == line;
  }

  lemma WireInThree(topic: string, data: string, tail: string)
    requires tail == data + [NEWLINE] + ""
    ensures Wire(topic, data) == "MSG" + [' '] + (topic + [' '] + tail)
  {
  }

  /** The three strtok calls take a printed line apart. */
  lemma HandledWire(slot: Slot, topic: string, data: string)
    requires ProperTopic(topic) && data != "" && Free(data, {'\r', '\n', '\0'})
    ensures Handled(slot, Wire(topic, data)) == if topic == slot.topic then Filtered(slot, data) else None
  {
    WireIsLine(topic, data);
    var tail := data + [NEWLINE] + "";
    WireInThree(topic, data, tail);
    StrtokWord("MSG", ' ', topic + [' '] + tail, SPACES);
    StrtokWord(topic, ' ', tail, SPACES);
    StrtokWord(data, NEWLINE, "", ENDS);
  }

  /**
   Round trip: for every proper message and every subscription, the callback runs exactly when topic and
   filters match, and then with exactly the published value, or the whole data if no key was asked for.
   */
  lemma PublishedIsHandled(slot: Slot, topic: string, m: Message)
    requires ProperTopic(topic) && Proper(m)
    ensures Handled(slot, Wire(topic, Cap(Spaced(WordsOf(m)), DATA_CAP))) == Expected(slot, topic, m)
  {
    WordsClean(m);
    SpacedClean(WordsOf(m));
    HandledWire(slot, topic, Spaced(WordsOf(m)));
    ParsedIsNoted(NOTHING, WordsOf(m));
    WordsTell(m);
  }

  // ---------------------------------------------------------------- from publisher to callback

  /** The lines cmos_publish sends for a sequence of messages. */
  function Sent(topic: string, ms: seq<Message>): (lines: seq<string>)
    ensures |lines| == |ms|
    ensures forall j :: 0 <= j < |ms| ==> lines[j] == Wire(topic, Cap(Spaced(WordsOf(ms[j])), DATA_CAP))
  {
    seq(|ms|, j requires 0 <= j < |ms| => Wire(topic, Cap(Spaced(WordsOf(ms[j])), DATA_CAP)))
  }

  /**
   End to end: a subscriber that receives the stream of any number of proper messages, in whatever pieces,
   hands on one line per message, and each leads to exactly the call that message should.
   */
  lemma EndToEnd(slot: Slot, topic: string, ms: seq<Message>, pieces: seq<string>)
    requires ProperTopic(topic) && forall j :: 0 <= j < |ms| ==> Proper(ms[j])
    requires Admissible("", pieces) && Concat(pieces) == Concat(Sent(topic, ms))
    ensures var got := ReceivedAll("", pieces);
      && got.rest == "" && |got.lines| == |ms|
      && forall j :: 0 <= j < |ms| ==> Handled(slot, got.lines[j]) == Expected(slot, topic, ms[j])
  {
    var lines := Sent(topic, ms);
    forall j | 0 <= j < |ms| ensures IsLine(lines[j]) && |lines[j]| <= LINE_BUF - 1 {
      WordsClean(ms[j]);
      SpacedClean(WordsOf(ms[j]));
      WireIsLine(topic, Spaced(WordsOf(ms[j])));
    }
    SplitOfLines(lines, "");
    assert Concat(lines) + "" == Concat(lines);
    PiecesDoNotMatter("", pieces);
    FedIsSplit(Concat(pieces));
    ShortLinesExactly(pieces);
    forall j | 0 <= j < |ms| ensures Handled(slot, lines[j]) == Expected(slot, topic, ms[j]) {
      PublishedIsHandled(slot, topic, ms[j]);
    }
  }

  // ---------------------------------------------------------------- subscriptions by name

  /** A filter as the subscriber gives it: none, or the field must have just this value. */
  predicate Wants(filter: Option<string>, field: Option<string>) {
    OrEmpty(filter) == "" || field == filter
  }

  /** With names of at most 63 characters a subscription gets exactly the messages it asks for. */
  lemma SubscriptionIsServed(wanted: string, state: Option<string>, kind: Option<string>, key: Option<string>,
                             topic: string, m: Message)
    requires ProperTopic(topic) && Proper(m) && |wanted| <= 63
    requires |OrEmpty(state)| <= 63 && |OrEmpty(kind)| <= 63 && |OrEmpty(key)| <= 63
    ensures Handled(Subscribed(wanted, state, kind, key), Wire(topic, Cap(Spaced(WordsOf(m)), DATA_CAP))) ==
      if topic == wanted && Wants(state, m.state) && Wants(kind, m.kind) && Wants(key, m.key)
      then Some(Call(topic, if OrEmpty(key) != "" then OrEmpty(m.value) else Spaced(WordsOf(m))))
      else None
  {
    PublishedIsHandled(Subscribed(wanted, state, kind, key), topic, m);
  }

  /** A longer filter is cut to 63 characters, and then asks for the cut value. */
  lemma LongFilterIsCut(key: string, field: Option<string>)
    requires |key| > 63
    ensures Accepts(Subscribed("", None, None, Some(key)).key, field) <==> field == Some(key[..63])
  {
  }

  // ---------------------------------------------------------------- exactly which values arrive

  lemma StrtokFree(s: string, delims: set<char>, d: set<char>)
    requires Free(s, d) && Strtok(s, delims).Some?
    ensures Free(Strtok(s, delims).value.text, d) && Free(Strtok(s, delims).value.rest, d)
  {
    SkipFree(s, delims, d);
  }

  lemma {:induction false} SkipFree(s: string, delims: set<char>, d: set<char>)
    requires Free(s, d)
    ensures Free(Skip(s, delims), d)
    decreases |s|
  {
    if s != "" && s[0] in delims {
      SkipFree(s[1..], delims, d);
    }
  }

  /** The words of a text without line ends or NUL have none either, and no blank. */
  lemma {:induction false} ParsedIsClean(f: Message, s: string)
    requires CleanField(f.value) && Free(s, {'\r', '\n', '\0'})
    ensures CleanField(ParsedFrom(f, s).value)
    decreases |s|
  {
    var t := Strtok(s, SPACE);
    if t.Some? {
      StrtokFree(s, SPACE, {'\r', '\n', '\0'});
      var w := t.value.text;
      assert Free(w, SPACE);
      assert Free(w, UNCLEAN);
      ParsedIsClean(Noted(f, w), t.value.rest);
    }
  }

  /** The data of a line has no line end and no NUL. */
  lemma DataIsClean(line: string)
    requires Strtok(CString(line), SPACES).Some?
    requires Strtok(Strtok(CString(line), SPACES).value.rest, SPACES).Some?
    requires Strtok(Strtok(Strtok(CString(line), SPACES).value.rest, SPACES).value.rest, ENDS).Some?
    ensures Free(Strtok(Strtok(Strtok(CString(line), SPACES).value.rest, SPACES).value.rest, ENDS).value.text, {'\r', '\n', '\0'})
  {
    var nul := {'\0'};
    assert Free(CString(line), nul);
    StrtokFree(CString(line), SPACES, nul);
    var one := Strtok(CString(line), SPACES).value.rest;
    StrtokFree(one, SPACES, nul);
    StrtokFree(Strtok(one, SPACES).value.rest, ENDS, nul);
  }

  /** No line at all makes a key-filtered callback see a value with a blank, a line end or a NUL in it. */
  lemma UncleanValueNeverArrives(slot: Slot, line: string, value: string)
    requires slot.key != "" && !Free(value, UNCLEAN)
    ensures Handled(slot, line) != Some(Call(slot.topic, value))
  {
    var cmd := Strtok(CString(line), SPACES);
    if cmd.Some? {
      var topic := Strtok(cmd.value.rest, SPACES);
      if topic.Some? {
        var data := Strtok(topic.value.rest, ENDS);
        if data.Some? {
          DataIsClean(line);
          ParsedIsClean(NOTHING, Cap(data.value.text, LINE_BUF - 1));
        }
      }
    }
  }

  // ---------------------------------------------------------------- data that does not fit

  /** The words in the first n characters of a text; the last may be cut. */
  function CutAt(words: seq<string>, n: nat): (r: seq<string>)
    ensures |r| <= |words|
    decreases |words|
  {
    if words == [] || n == 0 then []
    else if n <= |words[0]| then [words[0][..n]]
    else [words[0]] + CutAt(words[1..], n - |words[0]| - 1)
  }

  lemma {:induction false} CutWordy(words: seq<string>, n: nat)
    requires Wordy(words)
    ensures Wordy(CutAt(words, n))
    decreases |words|
  {
    if words != [] && n > |words[0]| {
      CutWordy(words[1..], n - |words[0]| - 1);
    }
  }

  lemma CutInFirst(f: Message, words: seq<string>, n: nat)
    requires Wordy(words) && words != [] && 0 < n <= |words[0]|
    ensures n <= |Spaced(words)| && ParsedFrom(f, Spaced(words)[..n]) == NotedAll(f, CutAt(words, n))
  {
    if |words| > 1 {
      SpacedFirst(words);
    }
    var w := words[0][..n];
    assert Spaced(words)[..n] == w;
    StrtokLast(w, SPACE);
    assert [w][1..] == [] && Strtok("", SPACE) == None;
  }

  lemma FirstWord(f: Message, w: string, rest: string, more: seq<string>)
    requires w != "" && Free(w, UNCLEAN)
    ensures ParsedFrom(f, w + [' '] + rest) == ParsedFrom(Noted(f, w), rest)
    ensures NotedAll(f, [w] + more) == NotedAll(Noted(f, w), more)
  {
    StrtokWord(w, ' ', rest, SPACE);
    assert ([w] + more)[1..] == more;
  }

  /** A cut text parses as its words, the last one as far as it goes. */
  lemma {:induction false} ParsedCut(f: Message, words: seq<string>, n: nat)
    requires Wordy(words) && n <= |Spaced(words)|
    ensures ParsedFrom(f, Spaced(words)[..n]) == NotedAll(f, CutAt(words, n))
    decreases |words|
  {
    if words == [] || n == 0 {
      assert Spaced(words)[..n] == "" && Strtok("", SPACE) == None;
    } else if n <= |words[0]| {
      CutInFirst(f, words, n);
    } else {
      var w, k := words[0], n - |words[0]| - 1;
      SpacedFirst(words);
      var rest := Spaced(words[1..])[..k];
      assert Spaced(words)[..n] == w + [' '] + rest;
      FirstWord(f, w, rest, CutAt(words[1..], k));
      ParsedCut(Noted(f, w), words[1..], k);
    }
  }

  /** A cut behind the text leaves all of it. */
  lemma {:induction false} CutWhole(words: seq<string>, n: nat)
    requires |Spaced(words)| <= n && Wordy(words)
    ensures CutAt(words, n) == words
    decreases |words|
  {
    if |words| > 1 {
      SpacedFirst(words);
      CutWhole(words[1..], n - |words[0]| - 1);
    } else if |words| == 1 {
      assert words == [words[0]] && words[1..] == [] && words[0][..|words[0]|] == words[0];
    }
  }

  /** A cut before the last word, or right before it, takes it away. */
  lemma {:induction false} CutBefore(words: seq<string>, w: string, n: nat)
    requires words != [] && n <= |Spaced(words)| + 1
    ensures CutAt(words + [w], n) == CutAt(words, n)
    decreases |words|
  {
    assert (words + [w])[1..] == words[1..] + [w] && (words + [w])[0] == words[0];
    if |words| > 1 {
      SpacedFirst(words);
      if n > |words[0]| {
        CutBefore(words[1..], w, n - |words[0]| - 1);
      }
    }
  }

  /** A cut inside the last word leaves the beginning of it. */
  lemma {:induction false} CutInside(words: seq<string>, w: string, k: nat)
    requires words != [] && 0 < k <= |w|
    ensures CutAt(words + [w], |Spaced(words)| + 1 + k) == words + [w[..k]]
    decreases |words|
  {
    assert (words + [w])[1..] == words[1..] + [w] && (words + [w])[0] == words[0];
    if |words| > 1 {
      SpacedFirst(words);
      CutInside(words[1..], w, k);
      assert [words[0]] + (words[1..] + [w[..k]]) == words + [w[..k]];
    } else {
      assert words[1..] + [w] == [w] && words == [words[0]];
    }
  }

  /** No word begins with c. */
  predicate NoneBegins(words: seq<string>, c: char) {
    forall i :: 0 <= i < |words| ==> words[i] != "" && words[i][0] != c
  }

  lemma {:induction false} CutBegins(words: seq<string>, n: nat, c: char)
    requires NoneBegins(words, c)
    ensures NoneBegins(CutAt(words, n), c)
    decreases |words|
  {
    if words != [] && n > |words[0]| {
      CutBegins(words[1..], n - |words[0]| - 1, c);
    }
  }

  lemma {:induction false} KeyUntouched(f: Message, words: seq<string>)
    requires NoneBegins(words, 'k')
    ensures NotedAll(f, words).key == f.key
    decreases |words|
  {
    if words != [] {
      assert words[0][0] != 'k' && "key="[0] == 'k';
      KeyUntouched(Noted(f, words[0]), words[1..]);
    }
  }

  /** The beginning of a value or key word says nothing, or a shorter value or key. */
  lemma NotedBeginning(f: Message, s: string, n: nat)
    requires n > 0
    ensures n < 6 + |s| ==> Noted(f, ("value=" + s)[..n]) == if n < 6 then f else f.(value := Some(s[..n - 6]))
    ensures n < 4 + |s| ==> Noted(f, ("key=" + s)[..n]) == if n < 4 then f else f.(key := Some(s[..n - 4]))
  {
    assert "state="[0] == 's' && "type="[0] == 't' && "key="[0] == 'k' && "value="[0] == 'v';
    if n < 6 + |s| {
      var w := ("value=" + s)[..n];
      assert w[0] == 'v';
      if n >= 6 {
        NotedLabels(f, s[..n - 6]);
        assert w == "value=" + s[..n - 6];
      }
    }
    if n < 4 + |s| {
      var w := ("key=" + s)[..n];
      assert w[0] == 'k';
      if n >= 4 {
        NotedLabels(f, s[..n - 4]);
        assert w == "key=" + s[..n - 4];
      }
    }
  }

  lemma NotedAllOneMore(f: Message, words: seq<string>, w: string)
    ensures NotedAll(f, words + [w]) == Noted(NotedAll(f, words), w)
  {
    NotedConcat(f, words, [w]);
    assert [w][1..] == [];
  }

  lemma SpacedLength(words: seq<string>, w: string)
    requires words != []
    ensures |Spaced(words + [w])| == |Spaced(words)| + 1 + |w|
  {
    SpacedOneMore(words, w);
  }

  /** A message whose labels fit but whose value does not: the labels are told, the value is not, or only in part. */
  lemma CutInValue(m: Message, n: nat)
    requires Labels(m) != [] && m.value.Some? && Wordy(WordsOf(m))
    requires |Spaced(Labels(m))| <= n < |Spaced(WordsOf(m))|
    ensures var f, v := NotedAll(NOTHING, CutAt(WordsOf(m), n)), m.value.value;
      f.(value := None) == m.(value := None) && (OrEmpty(f.value) == v <==> v == "")
  {
    var labels, v := Labels(m), m.value.value;
    var word := "value=" + v;
    assert WordsOf(m) == labels + [word];
    SpacedLength(labels, word);
    WordsTell(m.(value := None));
    assert Labels(m.(value := None)) == labels == WordsOf(m.(value := None));
    assert forall i :: 0 <= i < |labels| ==> labels[i] == WordsOf(m)[i];
    CutWhole(labels, n);
    if n <= |Spaced(labels)| + 1 {
      CutBefore(labels, word, n);
    } else {
      var k := n - |Spaced(labels)| - 1;
      CutInside(labels, word, k);
      NotedAllOneMore(NOTHING, labels, word[..k]);
      NotedBeginning(m.(value := None), v, k);
    }
  }

  lemma OthersBegin(m: Message)
    ensures NoneBegins(Labelled("state=", m.state) + Labelled("type=", m.kind), 'k')
  {
    assert "state="[0] == 's' && "type="[0] == 't';
  }

  /** A message whose labels do not fit is not told its key. */
  lemma CutInLabels(m: Message, n: nat)
    requires m.key.Some? && n < |Spaced(Labels(m))|
    ensures NotedAll(NOTHING, CutAt(Labels(m), n)).key != m.key
  {
    var others, k := Labelled("state=", m.state) + Labelled("type=", m.kind), m.key.value;
    var word := "key=" + k;
    assert Labels(m) == others + [word];
    OthersBegin(m);
    if others == [] {
      assert Labels(m) == [word];
      if n > 0 {
        assert CutAt([word], n) == [word[..n]];
        NotedAllOneMore(NOTHING, [], word[..n]);
        assert [] + [word[..n]] == [word[..n]];
        NotedBeginning(NOTHING, k, n);
      }
    } else {
      SpacedLength(others, word);
      if n <= |Spaced(others)| + 1 {
        CutBefore(others, word, n);
        CutBegins(others, n, 'k');
        KeyUntouched(NOTHING, CutAt(others, n));
      } else {
        var j := n - |Spaced(others)| - 1;
        CutInside(others, word, j);
        NotedAllOneMore(NOTHING, others, word[..j]);
        KeyUntouched(NOTHING, others);
        NotedBeginning(NotedAll(NOTHING, others), k, j);
      }
    }
  }

  /** The text of a message fits, or all that is lost of it is the label of an empty value. */
  predicate NothingLost(m: Message) {
    |Spaced(WordsOf(m))| <= 895 || (m.value == Some("") && |Spaced(Labels(m))| <= 895)
  }

  /** A clean message that is too long, and a slot that asks for its key. */
  lemma CutMessageIsHandled(slot: Slot, topic: string, m: Message)
    requires ProperTopic(topic) && topic == slot.topic && slot.key != "" && m.value.Some?
    requires CleanField(m.state) && CleanField(m.kind) && CleanField(m.key) && CleanField(m.value)
    requires Accepts(slot.state, m.state) && Accepts(slot.kind, m.kind) && Accepts(slot.key, m.key)
    requires |Spaced(WordsOf(m))| > DATA_CAP
    ensures Handled(slot, Wire(topic, Cap(Spaced(WordsOf(m)), DATA_CAP))) == Some(Call(topic, m.value.value)) <==> NothingLost(m)
  {
    var text, labels := Spaced(WordsOf(m)), Labels(m);
    assert labels != [] && labels[|labels| - 1] == "key=" + m.key.value;
    LabelsClean(m);
    FieldWordy("value=", m.value);
    WordyConcat(labels, Labelled("value=", m.value));
    assert WordsOf(m) == labels + Labelled("value=", m.value);
    SpacedClean(WordsOf(m));
    HandledWire(slot, topic, text[..DATA_CAP]);
    ParsedCut(NOTHING, WordsOf(m), DATA_CAP);
    if |Spaced(labels)| <= DATA_CAP {
      CutInValue(m, DATA_CAP);
    } else {
      CutBefore(labels, "value=" + m.value.value, DATA_CAP);
      CutInLabels(m, DATA_CAP);
    }
  }

  /**
   Exactly which published values reach a key-filtered callback unchanged, with everything else in order: those
   without blank, carriage return and newline whose message fits, or is only too long by the label of an empty
   value. Strings are C strings, so a value holds no NUL.
   */
  lemma ValueArrivesExactly(slot: Slot, topic: string, m: Message)
    requires ProperTopic(topic) && topic == slot.topic && slot.key != "" && m.value.Some? && Free(m.value.value, {'\0'})
    requires CleanField(m.state) && CleanField(m.kind) && CleanField(m.key)
    requires Accepts(slot.state, m.state) && Accepts(slot.kind, m.kind) && Accepts(slot.key, m.key)
    ensures Handled(slot, Wire(topic, Cap(Spaced(WordsOf(m)), DATA_CAP))) == Some(Call(topic, m.value.value)) <==>
            Free(m.value.value, SPACES) && NothingLost(m)
  {
    if !Free(m.value.value, SPACES) {
      UncleanValueNeverArrives(slot, Wire(topic, Cap(Spaced(WordsOf(m)), DATA_CAP)), m.value.value);
    } else {
      assert Free(m.value.value, UNCLEAN);
      if |Spaced(WordsOf(m))| > DATA_CAP {
        CutMessageIsHandled(slot, topic, m);
      } else {
        assert m.key.Some? && Labels(m)[|Labels(m)| - 1] == "key=" + m.key.value;
        PublishedIsHandled(slot, topic, m);
      }
    }
  }
}
