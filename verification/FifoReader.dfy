/** poky/bitbake/lib/bb/build.py, `readfifo`: NUL-terminated messages from a running shell task,
    read from a pipe in arbitrary chunks. */
module FifoReader {
  import opened Bytes
  import opened Lists
  import opened Wrappers

  datatype Notice =
    | Plain(text: string) | Note(text: string) | VerbNote(text: string) | Warn(text: string)
    | Error(text: string, forcelog: bool) | Debug(level: int, text: string)

  /** UTF-8 decoding and integer parsing; either may raise (None). */
  datatype Codec = Codec(decode: seq<Byte> -> Option<string>, toInt: string -> Option<int>)

  /** What a command with a value makes the build tool say; None if handling it raises. */
  function Say(c: Codec, cmd: string, value: string): Option<Notice> {
    match cmd
    case "bbplain" => Some(Plain(value))
    case "bbnote" => Some(Note(value))
    case "bbverbnote" => Some(VerbNote(value))
    case "bbwarn" => Some(Warn(value))
    case "bberror" => Some(Error(value, false))
    case "bbfatal" => Some(Error(value, false))
    case "bbfatal_log" => Some(Error(value, true))
    case "bbdebug" => SayDebug(c, value)
    case _ => Some(Warn("Unrecognised command '" + cmd + "' on FIFO"))
  }

  function SayDebug(c: Codec, value: string): Option<Notice> {
    var j := Find(value, ' ');
    var level := c.toInt(value[..j]);
    if level.None? || j == |value| then None else Some(Debug(level.value, value[j + 1..]))
  }

  function Dispatch(c: Codec, message: seq<Byte>): Option<Notice> {
    var k := Find(message, SPACE);
    var cmd := c.decode(message[..k]);
    var value := if k < |message| then c.decode(message[k + 1..]) else Some("");
    if cmd.None? || value.None? then None else Say(c, cmd.value, value.value)
  }

  lemma SayRaisesIff(c: Codec, cmd: string, value: string)
    ensures Say(c, cmd, value) == None <==> cmd == "bbdebug" && SayDebug(c, value) == None
  {
    hide SayDebug;
    assert "bbdebug"[2] == 'd' && "bbplain"[2] == 'p' && "bbfatal"[2] == 'f';
  }

  lemma DebugRaisesIff(c: Codec, value: string)
    ensures SayDebug(c, value) == None <==> ' ' !in value || c.toInt(value[..Find(value, ' ')]) == None
  {
    assert value[..|value|] == value;
  }

  /** Exactly the messages whose handling raises: the command or what follows its space does not decode, or
      a debug message has no second space, or no number before it. */
  lemma RaisesIff(c: Codec, message: seq<Byte>)
    ensures var k := Find(message, SPACE);
            var cmd, value := c.decode(message[..k]), if k < |message| then c.decode(message[k + 1..]) else Some("");
            Dispatch(c, message) == None <==>
              || cmd == None || value == None
              || (cmd == Some("bbdebug") &&
                  (' ' !in value.value || c.toInt(value.value[..Find(value.value, ' ')]) == None))
  {
    hide Say, SayDebug, Find;
    var k := Find(message, SPACE);
    var cmd, value := c.decode(message[..k]), if k < |message| then c.decode(message[k + 1..]) else Some("");
    if cmd.Some? && value.Some? {
      SayRaisesIff(c, cmd.value, value.value);
      DebugRaisesIff(c, value.value);
    }
  }

  /** The message handler of a reader: what a message says, or None where it raises. */
  type Handler = seq<Byte> -> Option<Notice>

  /** The outcome of reading a whole buffer: what was said, what is left, and whether it raised. */
  datatype Reading = Reading(notices: seq<Notice>, rest: seq<Byte>, raised: bool)

  function Read(h: Handler, buffer: seq<Byte>): Reading {
    var k := Find(buffer, NUL);
    if k == |buffer| then Reading([], buffer, false)
    else match h(buffer[..k])
      case None => Reading([], buffer, true)
      case Some(n) =>
        var r := Read(h, buffer[k + 1..]);
        r.(notices := [n] + r.notices)
  }

  lemma ReadFirst(h: Handler, buffer: seq<Byte>)
    ensures var k := Find(buffer, NUL);
      Read(h, buffer) ==
        if k == |buffer| then Reading([], buffer, false)
        else if h(buffer[..k]).None? then Reading([], buffer, true)
        else var r := Read(h, buffer[k + 1..]); Reading([h(buffer[..k]).value] + r.notices, r.rest, r.raised)
  {
    hide Find;
  }

  /** A message handled now is said before what the rest of the buffer says. */
  lemma ReadOne(h: Handler, buffer: seq<Byte>, k: nat, said: seq<Notice>, n: Notice)
    requires k == Find(buffer, NUL) < |buffer| && h(buffer[..k]) == Some(n)
    ensures var r, r1 := Read(h, buffer), Read(h, buffer[k + 1..]);
            said + r.notices == (said + [n]) + r1.notices && r.rest == r1.rest && r.raised == r1.raised
  {
    hide Read, Find;
    ReadFirst(h, buffer);
    AppendAssociates(said, [n], Read(h, buffer[k + 1..]).notices);
  }

  class FifoBuffer {
    const handle: Handler
    var fifobuffer: seq<Byte>
    var notices: seq<Notice>

    constructor (codec: Codec)
      ensures handle == (message => Dispatch(codec, message)) && fifobuffer == [] && notices == []
    {
      handle := message => Dispatch(codec, message);
      fifobuffer, notices := [], [];
    }

    method ReadFifo(data: seq<Byte>) returns (raised: bool)
      modifies this
      ensures var r := Read(handle, old(fifobuffer) + data);
              notices == old(notices) + r.notices && fifobuffer == r.rest && raised == r.raised
    {
      fifobuffer := fifobuffer + data;
      ghost var all := Read(handle, fifobuffer);
      while fifobuffer != []
        invariant var r := Read(handle, fifobuffer);
                  notices + r.notices == old(notices) + all.notices && r.rest == all.rest && r.raised == all.raised
        decreases |fifobuffer|
      {
        var k := Find(fifobuffer, NUL);
        if k == |fifobuffer| {
          break;
        }
        var notice := handle(fifobuffer[..k]);
        if notice.None? {
          return true;
        }
        ReadOne(handle, fifobuffer, k, notices, notice.value);
        notices := notices + [notice.value];
        fifobuffer := fifobuffer[k + 1..];
      }
      raised := false;
    }
  }

  // ---- chunking ----

  function Flatten(chunks: seq<seq<Byte>>): seq<Byte> {
    if chunks == [] then [] else Flatten(chunks[..|chunks| - 1]) + chunks[|chunks| - 1]
  }

  /** The reader's notices and buffer after a sequence of `readfifo` calls. */
  function AfterChunks(h: Handler, chunks: seq<seq<Byte>>): (seq<Notice>, seq<Byte>) {
    if chunks == [] then ([], [])
    else
      var (said, buffer) := AfterChunks(h, chunks[..|chunks| - 1]);
      var r := Read(h, buffer + chunks[|chunks| - 1]);
      (said + r.notices, r.rest)
  }

  /** Reading more at once is reading the first part and then what it left with the second. A
      message that raised stays at the front and raises again. */
  lemma {:induction false} ReadAppended(h: Handler, a: seq<Byte>, b: seq<Byte>)
    ensures var ra := Read(h, a);
            var rb := Read(h, ra.rest + b);
            && Read(h, a + b) == Reading(ra.notices + rb.notices, rb.rest, rb.raised)
            && (ra.raised ==> rb == Reading([], ra.rest + b, true))
    decreases |a|
  {
    hide Read, Find;
    var k := Find(a, NUL);
    FindInAppended(a, b, NUL);
    ReadFirst(h, a);
    ReadFirst(h, a + b);
    if k < |a| {
      assert (a + b)[..k] == a[..k];
      if h(a[..k]).Some? {
        assert (a + b)[k + 1..] == a[k + 1..] + b;
        ReadAppended(h, a[k + 1..], b);
        var r := Read(h, a[k + 1..]);
        AppendAssociates([h(a[..k]).value], r.notices, Read(h, r.rest + b).notices);
      }
    } else {
      assert [] + Read(h, a + b).notices == Read(h, a + b).notices;
    }
  }

  /** However the stream is cut into chunks, the reader says the same and keeps the same. */
  lemma {:induction false} ChunkingInvariant(h: Handler, chunks: seq<seq<Byte>>)
    ensures AfterChunks(h, chunks) == (Read(h, Flatten(chunks)).notices, Read(h, Flatten(chunks)).rest)
  {
    if chunks != [] {
      ChunkingInvariant(h, chunks[..|chunks| - 1]);
      ReadAppended(h, Flatten(chunks[..|chunks| - 1]), chunks[|chunks| - 1]);
    }
  }

  // ---- framing ----

  /** The bytes a sender writes for a list of messages. */
  function Framed(messages: seq<seq<Byte>>): seq<Byte> {
    if messages == [] then [] else messages[0] + [NUL] + Framed(messages[1..])
  }

  /** The notices of the messages up to the first that raises. */
  function Dispatched(h: Handler, messages: seq<seq<Byte>>): seq<Notice> {
    if messages == [] || h(messages[0]).None? then []
    else [h(messages[0]).value] + Dispatched(h, messages[1..])
  }

  /** The reader inverts the sender: every stream of NUL-free messages with a NUL-free tail is read
      as those messages, in order, up to one that raises; what was not handled is left in the buffer. */
  lemma {:induction false} ReadInvertsFraming(h: Handler, messages: seq<seq<Byte>>, tail: seq<Byte>)
    requires (forall m :: m in messages ==> NulFree(m)) && NulFree(tail)
    ensures var r, n := Read(h, Framed(messages) + tail), |Dispatched(h, messages)|;
            && n <= |messages| && r.notices == Dispatched(h, messages)
            && r.rest == Framed(messages[n..]) + tail
            && (r.raised <==> n < |messages|)
  {
    if messages == [] {
      assert Framed(messages) + tail == tail;
    } else {
      var m := messages[0];
      FramedSplits(messages, tail);
      ReadFramedOne(h, m, Framed(messages[1..]) + tail);
      if h(m).Some? {
        ReadInvertsFraming(h, messages[1..], tail);
        assert messages[1..][|Dispatched(h, messages[1..])|..] == messages[|Dispatched(h, messages)|..];
      }
    }
  }

  lemma FramedSplits(messages: seq<seq<Byte>>, tail: seq<Byte>)
    requires messages != []
    ensures Framed(messages) + tail == messages[0] + [NUL] + (Framed(messages[1..]) + tail)
  {
  }

  lemma ReadFramedOne(h: Handler, m: seq<Byte>, more: seq<Byte>)
    requires NulFree(m)
    ensures var r := Read(h, more);
            Read(h, m + [NUL] + more) ==
              if h(m).None? then Reading([], m + [NUL] + more, true) else r.(notices := [h(m).value] + r.notices)
  {
    FindAfter(m, NUL, more);
    assert (m + [NUL] + more)[..|m|] == m && (m + [NUL] + more)[|m| + 1..] == more;
  }

  /** Every stream has such a reading: NUL-free messages, then a NUL-free tail. */
  lemma {:induction false} EveryStreamIsFramed(stream: seq<Byte>) returns (messages: seq<seq<Byte>>, tail: seq<Byte>)
    ensures (forall m :: m in messages ==> NulFree(m)) && NulFree(tail) && stream == Framed(messages) + tail
    decreases |stream|
  {
    var k := Find(stream, NUL);
    assert stream[..|stream|] == stream;
    if k == |stream| {
      messages, tail := [], stream;
    } else {
      var rest;
      rest, tail := EveryStreamIsFramed(stream[k + 1..]);
      messages := [stream[..k]] + rest;
      assert stream == stream[..k] + [NUL] + stream[k + 1..];
    }
  }

  // ---- the sender ----

  const WORDS := {"bbplain", "bbnote", "bbverbnote", "bbwarn", "bberror", "bbfatal", "bbfatal_log", "bbdebug"}

  /** The commands with which a task asks for the notice. */
  function WordsFor(n: Notice): set<string> {
    match n
    case Plain(_) => {"bbplain"}
    case Note(_) => {"bbnote"}
    case VerbNote(_) => {"bbverbnote"}
    case Warn(_) => {"bbwarn"}
    case Error(_, forcelog) => if forcelog then {"bbfatal_log"} else {"bberror", "bbfatal"}
    case Debug(_, _) => {"bbdebug"}
  }

  /** What follows the command is the text; for a debug message the level, a space and the text. */
  ghost predicate Carries(c: Codec, n: Notice, value: string) {
    if n.Debug? then
      exists digits: string :: ' ' !in digits && c.toInt(digits) == Some(n.level) && value == digits + " " + n.text
    else value == n.text
  }

  /** The notice is the one that was asked for, or the warning about a command that nobody knows. */
  ghost predicate Means(c: Codec, cmd: string, value: string, n: Notice) {
    || (cmd in WordsFor(n) && Carries(c, n, value))
    || (cmd !in WORDS && n == Warn("Unrecognised command '" + cmd + "' on FIFO"))
  }

  lemma DebugIff(c: Codec, value: string, n: Notice)
    requires n.Debug?
    ensures SayDebug(c, value) == Some(n) <==> Carries(c, n, value)
  {
    var j := Find(value, ' ');
    if j < |value| {
      assert value == value[..j] + " " + value[j + 1..];
    }
    if digits: string :| ' ' !in digits && c.toInt(digits) == Some(n.level) && value == digits + " " + n.text {
      FindAfter(digits, ' ', n.text);
      assert value == digits + [' '] + n.text && value[..|digits|] == digits && value[|digits| + 1..] == n.text;
    }
  }

  lemma SayIff(c: Codec, cmd: string, value: string, n: Notice)
    ensures Say(c, cmd, value) == Some(n) <==> Means(c, cmd, value, n)
  {
    assert SayDebug(c, value) == None || SayDebug(c, value).value.Debug?;
    if n.Debug? { DebugIff(c, value, n); } else { CarriesText(c, n, value); }
    hide SayDebug, Carries;
    assert "bbplain"[2] == 'p' && "bbnote"[2] == 'n' && "bbverbnote"[2] == 'v' && "bbwarn"[2] == 'w';
    assert "bberror"[2] == 'e' && "bbfatal"[2] == 'f' && "bbfatal_log"[2] == 'f' && "bbdebug"[2] == 'd';
    assert |"bbfatal"| == 7 && |"bbfatal_log"| == 11;
  }

  lemma CarriesText(c: Codec, n: Notice, value: string)
    requires !n.Debug?
    ensures Carries(c, n, value) <==> value == n.text
  {
  }

  /** A message as a task writes it: the command, a space, and what follows. */
  datatype Sent = Sent(word: seq<Byte>, body: seq<Byte>) {
    function Bytes(): seq<Byte> { word + [SPACE] + body }
  }

  /** Both parts decode, and mean the notice. */
  ghost predicate Asks(c: Codec, m: Sent, n: Notice) {
    && SPACE !in m.word && c.decode(m.word).Some? && c.decode(m.body).Some?
    && Means(c, c.decode(m.word).value, c.decode(m.body).value, n)
  }

  /** The handler inverts the sender, for every message and every notice. */
  lemma DispatchIff(c: Codec, m: Sent, n: Notice)
    requires SPACE !in m.word
    ensures Dispatch(c, m.Bytes()) == Some(n) <==> Asks(c, m, n)
  {
    var s := m.Bytes();
    FindAfter(m.word, SPACE, m.body);
    assert s[..|m.word|] == m.word && s[|m.word| + 1..] == m.body;
    if c.decode(m.word).Some? && c.decode(m.body).Some? {
      SayIff(c, c.decode(m.word).value, c.decode(m.body).value, n);
    }
    hide Say, Means, Find;
  }

  lemma AskedIsShown(c: Codec, m: Sent, n: Notice)
    requires Asks(c, m, n)
    ensures Dispatch(c, m.Bytes()) == Some(n)
  {
    DispatchIff(c, m, n);
  }

  /** A command alone is a command with an empty text. */
  lemma CommandAlone(c: Codec, word: seq<Byte>, n: Notice)
    requires SPACE !in word
    ensures Dispatch(c, word) == Some(n) <==> c.decode(word).Some? && Means(c, c.decode(word).value, "", n)
  {
    FindAbsent(word, SPACE);
    assert word[..|word|] == word;
    if c.decode(word).Some? { SayIff(c, c.decode(word).value, "", n); }
    hide Say, Means, Find;
  }

  lemma FindAbsent<T>(s: seq<T>, x: T)
    requires x !in s
    ensures Find(s, x) == |s|
  {
  }

  function BytesOf(sent: seq<Sent>): seq<seq<Byte>> { seq(|sent|, i requires 0 <= i < |sent| => sent[i].Bytes()) }

  /** Whatever tasks write, in whatever chunks it arrives: the notices that they ask for are shown in
      order, and an unfinished message waits in the buffer. */
  lemma NoticesArrive(c: Codec, sent: seq<Sent>, notices: seq<Notice>, tail: seq<Byte>, chunks: seq<seq<Byte>>)
    requires |sent| == |notices| && forall i :: 0 <= i < |sent| ==> Asks(c, sent[i], notices[i])
    requires NulFree(tail) && forall i :: 0 <= i < |sent| ==> NulFree(sent[i].Bytes())
    requires Flatten(chunks) == Framed(BytesOf(sent)) + tail
    ensures AfterChunks(m => Dispatch(c, m), chunks) == (notices, tail)
  {
    hide Dispatch, Asks, Read, Framed, Flatten, AfterChunks, Dispatched;
    var h: Handler := m => Dispatch(c, m);
    var messages := BytesOf(sent);
    forall i | 0 <= i < |sent| ensures h(messages[i]) == Some(notices[i]) { AskedIsShown(c, sent[i], notices[i]); }
    AllDispatched(h, messages, notices);
    ReadInvertsFraming(h, messages, tail);
    ChunkingInvariant(h, chunks);
    assert messages[|messages|..] == [];
    NothingFramed(tail);
  }

  lemma NothingFramed(tail: seq<Byte>)
    ensures Framed([]) + tail == tail
  {
  }

  lemma {:induction false} AllDispatched(h: Handler, messages: seq<seq<Byte>>, notices: seq<Notice>)
    requires |messages| == |notices| && forall i :: 0 <= i < |messages| ==> h(messages[i]) == Some(notices[i])
    ensures Dispatched(h, messages) == notices
  {
    if messages != [] { AllDispatched(h, messages[1..], notices[1..]); }
  }
}
