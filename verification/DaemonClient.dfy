/** DaemonClient.ts: cutting the stream from the daemon into messages, one a line. */
module DaemonClient {
  import opened Seqs
  import opened Text

  function IsBreak(c: char): bool {
    c == '\n'
  }

  /** `split("\n")`: the pieces between line breaks; there is always a last one. */
  function Pieces(s: string): (ps: seq<string>)
    ensures ps != []
    decreases |s|
  {
    var n := FirstIndex(IsBreak, s);
    if n == |s| then [s] else [s[..n]] + Pieces(s[n + 1..])
  }

  /** The lines of a stream that have ended. */
  function Complete(s: string): seq<string> {
    Pieces(s)[..|Pieces(s)| - 1]
  }

  /** What stands behind the last line break. */
  function Rest(s: string): string {
    Pieces(s)[|Pieces(s)| - 1]
  }

  /** The white space of `String.prototype.trim`. */
  predicate IsJsSpace(c: char) {
    var u := c as int;
    9 <= u <= 13 || u == 32 || u == 0xA0 || u == 0x1680 || 0x2000 <= u <= 0x200A || u == 0x2028 || u == 0x2029
    || u == 0x202F || u == 0x205F || u == 0x3000 || u == 0xFEFF
  }

  /** Those of Unicode's category Zs, the line ends of JavaScript, tab, form feed and vertical tab, and
      the byte order mark. */
  lemma JsSpacesAre(c: char)
    ensures IsJsSpace(c) <==>
      c as int in {0x09, 0x0A, 0x0B, 0x0C, 0x0D, 0x20, 0xA0, 0x1680, 0x2000, 0x2001, 0x2002, 0x2003, 0x2004, 0x2005, 0x2006,
                   0x2007, 0x2008, 0x2009, 0x200A, 0x2028, 0x2029, 0x202F, 0x205F, 0x3000, 0xFEFF}
  {
  }

  predicate IsBlank(l: string) {
    forall i :: 0 <= i < |l| ==> IsJsSpace(l[i])
  }

  /** A handler is called with a message, or a warning is printed with the beginning of a line. */
  datatype Event<+M> = Called(handler: nat, msg: M) | Malformed(text: string)

  function Warning<M>(line: string): Event<M> {
    Malformed(if |line| <= 100 then line else line[..100])
  }

  /** The handlers are called in order. One that throws ends the calls, and the line is reported as
      malformed. A handler is given by the messages it throws at. */
  function CallsOf<M>(handlers: seq<M -> bool>, msg: M, line: string): seq<Event<M>> {
    var n := FirstIndex((h: M -> bool) => h(msg), handlers);
    if n == |handlers| then Calls(n, msg) else Calls(n + 1, msg) + [Warning(line)]
  }

  function Calls<M>(n: nat, msg: M): seq<Event<M>> {
    seq(n, i requires 0 <= i => Called(i, msg))
  }

  /** What a line causes. */
  function EventOf<M>(parse: string -> Option<M>, handlers: seq<M -> bool>, line: string): seq<Event<M>> {
    if IsBlank(line) then []
    else
      match parse(line)
      case Some(msg) => CallsOf(handlers, msg, line)
      case None => [Warning(line)]
  }

  function EventsOf<M>(parse: string -> Option<M>, handlers: seq<M -> bool>, lines: seq<string>): seq<Event<M>> {
    if lines == [] then [] else EventOf(parse, handlers, lines[0]) + EventsOf(parse, handlers, lines[1..])
  }

  lemma {:induction false} EventsAppend<M>(parse: string -> Option<M>, handlers: seq<M -> bool>, a: seq<string>, b: seq<string>)
    ensures EventsOf(parse, handlers, a + b) == EventsOf(parse, handlers, a) + EventsOf(parse, handlers, b)
  {
    hide EventOf;
    if a == [] {
      assert a + b == b;
    } else {
      assert (a + b)[1..] == a[1..] + b;
      EventsAppend(parse, handlers, a[1..], b);
    }
  }

  lemma PiecesCut(s: string, n: nat)
    requires n == FirstIndex(IsBreak, s) < |s|
    ensures Pieces(s) == [s[..n]] + Pieces(s[n + 1..])
  {
    hide FirstIndex;
  }

  lemma PiecesWhole(s: string)
    requires FirstIndex(IsBreak, s) == |s|
    ensures Pieces(s) == [s]
  {
  }

  lemma CutConcat(s: string, t: string, n: nat)
    requires n < |s|
    ensures (s + t)[..n] == s[..n] && (s + t)[n + 1..] == s[n + 1..] + t
    ensures s == s[..n] + s[n..] && s + t == s[..n] + (s[n..] + t)
  {
  }

  /** More text lengthens the last piece and then cuts it. */
  lemma {:induction false} PiecesConcat(s: string, t: string)
    ensures Pieces(s + t) == Complete(s) + Pieces(Rest(s) + t)
    decreases |s|
  {
    hide Pieces, FirstIndex;
    var n := FirstIndex(IsBreak, s);
    if n == |s| {
      PiecesWhole(s);
      assert Complete(s) == [];
      assert [] + Pieces(s + t) == Pieces(s + t);
    } else {
      PiecesCut(s, n);
      CutConcat(s, t, n);
      FirstIndexOf(IsBreak, s[..n], s[n..] + t);
      PiecesCut(s + t, n);
      PiecesConcat(s[n + 1..], t);
      var tail := s[n + 1..];
      assert Complete(s) == [s[..n]] + Complete(tail);
      assert [s[..n]] + (Complete(tail) + Pieces(Rest(tail) + t)) == [s[..n]] + Complete(tail) + Pieces(Rest(tail) + t);
    }
  }

  lemma CompleteConcat(s: string, t: string)
    ensures Complete(s + t) == Complete(s) + Complete(Rest(s) + t) && Rest(s + t) == Rest(Rest(s) + t)
  {
    hide Pieces;
    PiecesConcat(s, t);
  }

  /** The pieces say all there is to say about the stream: complete lines without line breaks, in
      order, and a rest without one. */
  lemma {:induction false} PiecesAreTheStream(s: string)
    ensures Flatten(Map(WithBreak, Complete(s))) + Rest(s) == s
    ensures NoNewline(Rest(s)) && forall i :: 0 <= i < |Complete(s)| ==> NoNewline(Complete(s)[i])
    decreases |s|
  {
    hide *;
    var n := FirstIndex(IsBreak, s);
    NoneIsNoBreaks(s[..n]);
    if n == |s| {
      OnePiece(s);
      NoPieces();
      assert s[..n] == s && "" + s == s;
    } else {
      var tail := s[n + 1..];
      FirstPiece(s, n);
      PiecesAreTheStream(tail);
      MapAppend(WithBreak, [s[..n]], Complete(tail));
      FlattenAppend(Map(WithBreak, [s[..n]]), Map(WithBreak, Complete(tail)));
      BrokenPiece(s[..n]);
      assert s == s[..n] + [s[n]] + tail;
      IsBreakMeans(s[n]);
      assert s[..n] + "\n" + Flatten(Map(WithBreak, Complete(tail))) + Rest(tail) ==
        s[..n] + "\n" + (Flatten(Map(WithBreak, Complete(tail))) + Rest(tail));
    }
  }

  lemma BrokenPiece(l: string)
    ensures Flatten(Map(WithBreak, [l])) == l + "\n"
  {
    FlattenOne(l + "\n");
    assert Map(WithBreak, [l]) == [l + "\n"];
  }

  lemma IsBreakMeans(c: char)
    ensures IsBreak(c) <==> c == '\n'
  {
  }

  lemma NoPieces()
    ensures Flatten(Map(WithBreak, [])) == ""
  {
  }

  lemma OnePiece(s: string)
    requires FirstIndex(IsBreak, s) == |s|
    ensures Complete(s) == [] && Rest(s) == s
  {
    hide Pieces;
    PiecesWhole(s);
  }

  lemma FirstPiece(s: string, n: nat)
    requires n == FirstIndex(IsBreak, s) < |s|
    ensures Complete(s) == [s[..n]] + Complete(s[n + 1..]) && Rest(s) == Rest(s[n + 1..])
  {
    hide Pieces, FirstIndex;
    PiecesCut(s, n);
    var head, ps := [s[..n]], Pieces(s[n + 1..]);
    assert (head + ps)[..|ps|] == head + ps[..|ps| - 1];
  }

  lemma NoneIsNoBreaks(s: string)
    requires HasNone(IsBreak, s)
    ensures NoNewline(s)
  {
    forall i | 0 <= i < |s| ensures s[i] != '\n' {
      assert !IsBreak(s[i]);
    }
  }

  /** The client, over all its connections: neither closing nor connecting touches the buffer. */
  class Client<M> {
    var buffer: string
    var handlers: seq<M -> bool>
    var connected: bool
    var events: seq<Event<M>>
    const parse: string -> Option<M>
    ghost var stream: string

    /** What is kept depends on the characters received so far, not on the chunks they came in. */
    ghost predicate Valid()
      reads this
    {
      buffer == Rest(stream)
    }

    constructor (parser: string -> Option<M>)
      ensures Valid() && buffer == "" && handlers == [] && !connected && events == [] && stream == "" && parse == parser
    {
      parse := parser;
      buffer, handlers, connected, events, stream := "", [], false, [], "";
      new;
      PiecesWhole("");
    }

    method OnMessage(handler: M -> bool)
      requires Valid()
      modifies `handlers
      ensures Valid() && handlers == old(handlers) + [handler]
    {
      handlers := handlers + [handler];
    }

    /** The socket is connected. */
    method OnConnect()
      requires Valid()
      modifies `connected
      ensures Valid() && connected
    {
      connected := true;
    }

    /** The handler of "close": the buffer stays. */
    method OnClose()
      requires Valid()
      modifies `connected
      ensures Valid() && !connected
    {
      connected := false;
    }

    /** One line: `JSON.parse`, the calls of the handlers, and the `catch` around both. */
    method Dispatch(line: string)
      modifies `events
      ensures events == old(events) + EventOf(parse, handlers, line)
    {
      if !IsBlank(line) {
        match parse(line) {
          case Some(msg) =>
            var k := 0;
            while k < |handlers| && !handlers[k](msg)
              invariant 0 <= k <= |handlers| && events == old(events) + Calls(k, msg)
              invariant forall j :: 0 <= j < k ==> !handlers[j](msg)
            {
              events := events + [Called(k, msg)];
              k := k + 1;
            }
            FirstThrower(handlers, msg, k);
            if k < |handlers| {
              events := events + [Called(k, msg)];
              assert events == old(events) + Calls(k + 1, msg);
              events := events + [Warning(line)];
            }
          case None =>
            events := events + [Warning(line)];
        }
      }
    }

    /** The handler of "data". */
    method OnData(data: string)
      requires Valid()
      modifies `buffer, `events, `stream
      ensures Valid() && stream == old(stream) + data
      ensures buffer == Rest(old(buffer) + data)
      ensures events == old(events) + EventsOf(parse, handlers, Complete(old(buffer) + data))
    {
      hide Pieces, EventsOf, EventOf;
      ghost var sofar := stream;
      CompleteConcat(sofar, data);
      buffer := buffer + data;
      var lines := Pieces(buffer);
      ghost var complete := Complete(buffer);
      buffer := lines[|lines| - 1];
      lines := lines[..|lines| - 1];
      NoEvents(parse, handlers);
      assert lines[..0] == [];
      var i := 0;
      while i < |lines|
        invariant 0 <= i <= |lines| && lines == complete && buffer == Rest(sofar + data) && stream == sofar
        invariant events == old(events) + EventsOf(parse, handlers, lines[..i])
        modifies `events
      {
        EventsNext(parse, handlers, lines, i);
        assert old(events) + EventsOf(parse, handlers, lines[..i]) + EventOf(parse, handlers, lines[i]) ==
          old(events) + (EventsOf(parse, handlers, lines[..i]) + EventOf(parse, handlers, lines[i]));
        Dispatch(lines[i]);
        i := i + 1;
      }
      assert lines[..i] == lines;
      stream := stream + data;
    }
  }

  lemma FirstThrower<M>(handlers: seq<M -> bool>, msg: M, k: nat)
    requires k <= |handlers| && (forall j :: 0 <= j < k ==> !handlers[j](msg)) && (k < |handlers| ==> handlers[k](msg))
    ensures FirstIndex((h: M -> bool) => h(msg), handlers) == k
  {
    hide FirstIndex;
    FirstIndexOf((h: M -> bool) => h(msg), handlers[..k], handlers[k..]);
    assert handlers[..k] + handlers[k..] == handlers;
  }

  /** A line that holds a message reaches exactly the handlers up to the first that throws, each
      once and in order, and it is reported as malformed exactly if one throws. */
  lemma HandlersReached<M>(parse: string -> Option<M>, handlers: seq<M -> bool>, line: string, k: nat)
    requires !IsBlank(line) && parse(line).Some? && k < |handlers|
    ensures var msg, events := parse(line).value, EventOf(parse, handlers, line);
            (Called(k, msg) in events <==> forall j :: 0 <= j < k ==> !handlers[j](msg))
            && (Called(k, msg) in events ==> k < |events| && events[k] == Called(k, msg))
            && (Warning(line) in events <==> exists j :: 0 <= j < |handlers| && handlers[j](msg))
  {
    hide FirstIndex;
    var msg := parse(line).value;
    var throws := (h: M -> bool) => h(msg);
    var n := FirstIndex(throws, handlers);
    var events := EventOf(parse, handlers, line);
    forall j | 0 <= j < n ensures !handlers[j](msg) { assert !throws(handlers[..n][j]); }
    if k <= n { assert events[k] == Called(k, msg); }
    if n < |handlers| { assert events[|events| - 1] == Warning(line); }
  }

  /** A report has the first hundred characters of the line, or the whole line if it is no longer. */
  predicate Reports<M>(e: Event<M>, line: string) {
    e.Malformed? && e.text <= line && (e.text == line <==> |line| <= 100) && |e.text| <= 100
    && (|line| > 100 ==> |e.text| == 100)
  }

  /** A line of blanks causes nothing; one that is no message is reported once, and nobody is called. */
  lemma OtherLines<M>(parse: string -> Option<M>, handlers: seq<M -> bool>, line: string)
    ensures Reports(Warning<M>(line), line)
    ensures (forall i :: 0 <= i < |line| ==> IsJsSpace(line[i])) ==> EventOf(parse, handlers, line) == []
    ensures (exists i :: 0 <= i < |line| && !IsJsSpace(line[i])) && parse(line).None? ==>
      |EventOf(parse, handlers, line)| == 1 && Reports(EventOf(parse, handlers, line)[0], line)
  {
    hide IsJsSpace;
  }

  lemma NoEvents<M>(parse: string -> Option<M>, handlers: seq<M -> bool>)
    ensures EventsOf(parse, handlers, []) == []
  {
  }

  lemma EventsNext<M>(parse: string -> Option<M>, handlers: seq<M -> bool>, lines: seq<string>, i: nat)
    requires i < |lines|
    ensures EventsOf(parse, handlers, lines[..i + 1]) ==
      EventsOf(parse, handlers, lines[..i]) + EventOf(parse, handlers, lines[i])
  {
    hide EventOf;
    assert lines[..i + 1] == lines[..i] + [lines[i]];
    EventsAppend(parse, handlers, lines[..i], [lines[i]]);
    assert [lines[i]][1..] == [];
  }

  // ----- any chunks -----

  /** Buffer and events after some chunks. */
  function Feed<M>(parse: string -> Option<M>, handlers: seq<M -> bool>, chunks: seq<string>): (string, seq<Event<M>>) {
    if chunks == [] then ("", [])
    else
      var (buffer, events) := Feed(parse, handlers, chunks[..|chunks| - 1]);
      var all := buffer + chunks[|chunks| - 1];
      (Rest(all), events + EventsOf(parse, handlers, Complete(all)))
  }

  /** Whatever the chunks, the complete lines of their concatenation are dispatched in order, and
      the text behind the last line break is kept. */
  lemma {:induction false} ChunksDoNotMatter<M>(parse: string -> Option<M>, handlers: seq<M -> bool>, chunks: seq<string>)
    ensures Feed(parse, handlers, chunks) ==
      (Rest(Flatten(chunks)), EventsOf(parse, handlers, Complete(Flatten(chunks))))
    decreases |chunks|
  {
    hide Pieces, EventsOf, Flatten;
    if chunks == [] {
      PiecesWhole("");
      assert Complete("") == [];
      NoEvents(parse, handlers);
      assert Flatten(chunks) == "" by { NoChunks(); }
    } else {
      var before, last := chunks[..|chunks| - 1], chunks[|chunks| - 1];
      ChunksDoNotMatter(parse, handlers, before);
      assert chunks == before + [last];
      FlattenAppend(before, [last]);
      FlattenOne(last);
      CompleteConcat(Flatten(before), last);
      EventsAppend(parse, handlers, Complete(Flatten(before)), Complete(Rest(Flatten(before)) + last));
    }
  }

  lemma NoChunks()
    ensures Flatten<char>([]) == []
  {
  }

  /** A client that is handed chunks one after the other, over one connection or several. */
  method Receive<M>(c: Client<M>, chunks: seq<string>)
    requires c.Valid()
    modifies c`buffer, c`events, c`stream
    ensures c.Valid() && c.stream == old(c.stream) + Flatten(chunks)
    ensures c.buffer == Rest(old(c.buffer) + Flatten(chunks))
    ensures c.events == old(c.events) + EventsOf(c.parse, c.handlers, Complete(old(c.buffer) + Flatten(chunks)))
  {
    hide Pieces, EventsOf, Flatten;
    var i := 0;
    NoChunks();
    NoEvents(c.parse, c.handlers);
    RestHasNoBreaks(c.stream);
    ghost var start := c.buffer;
    assert chunks[..0] == [] && start + "" == start;
    while i < |chunks|
      invariant 0 <= i <= |chunks| && c.Valid() && c.stream == old(c.stream) + Flatten(chunks[..i])
      invariant c.buffer == Rest(start + Flatten(chunks[..i]))
      invariant c.events == old(c.events) + EventsOf(c.parse, c.handlers, Complete(start + Flatten(chunks[..i])))
    {
      ghost var before := start + Flatten(chunks[..i]);
      assert chunks[..i + 1] == chunks[..i] + [chunks[i]];
      FlattenAppend(chunks[..i], [chunks[i]]);
      FlattenOne(chunks[i]);
      CompleteConcat(before, chunks[i]);
      EventsAppend(c.parse, c.handlers, Complete(before), Complete(Rest(before) + chunks[i]));
      assert before + chunks[i] == start + Flatten(chunks[..i + 1]);
      assert old(c.stream) + Flatten(chunks[..i]) + chunks[i] == old(c.stream) + Flatten(chunks[..i + 1]);
      c.OnData(chunks[i]);
      i := i + 1;
    }
    assert chunks[..i] == chunks;
  }

  lemma RestHasNoBreaks(s: string)
    ensures Pieces(Rest(s)) == [Rest(s)] && Complete(Rest(s)) == [] && Rest(Rest(s)) == Rest(s)
  {
    hide Pieces;
    PiecesAreTheStream(s);
    NoBreaksIsOne(Rest(s));
  }

  lemma NoBreaksIsOne(s: string)
    requires NoNewline(s)
    ensures Pieces(s) == [s]
  {
    hide FirstIndex, Pieces;
    var n := FirstIndex(IsBreak, s);
    assert n < |s| ==> IsBreak(s[n]);
    PiecesWhole(s);
  }

  // ----- several connections -----

  /** Text before a stream lengthens its first piece. */
  lemma PiecesBehind(r: string, s: string)
    requires NoNewline(r)
    ensures Pieces(r + s) == [r + Pieces(s)[0]] + Pieces(s)[1..]
  {
    hide FirstIndex, Pieces;
    var n := FirstIndex(IsBreak, s);
    forall i | 0 <= i < |r| ensures !IsBreak(r[i]) {
    }
    FirstIndexSkip(IsBreak, r, s);
    if n == |s| {
      PiecesWhole(s);
      PiecesWhole(r + s);
    } else {
      PiecesCut(s, n);
      PiecesCut(r + s, |r| + n);
      assert (r + s)[..|r| + n] == r + s[..n] && (r + s)[|r| + n + 1..] == s[n + 1..];
    }
  }

  lemma LongerDiffers(r: string, s: string)
    ensures r + s == s <==> r == ""
  {
    if r == "" { assert r + s == s; } else { assert |r + s| > |s|; }
  }

  /** What a connection delivers is framed as if it were the first exactly when the one before it
      was closed behind a complete line. */
  lemma FramedAloneExactly(before: string, stream: string)
    ensures (Complete(Rest(before) + stream) == Complete(stream) && Rest(Rest(before) + stream) == Rest(stream)) <==>
      Rest(before) == ""
  {
    hide Pieces;
    var r, ps := Rest(before), Pieces(stream);
    PiecesAreTheStream(before);
    PiecesBehind(r, stream);
    LongerDiffers(r, ps[0]);
    if |ps| == 1 {
      assert Rest(r + stream) == r + ps[0];
    } else {
      assert Complete(r + stream)[0] == r + ps[0] && Complete(stream)[0] == ps[0];
    }
    if r == "" { assert r + stream == stream; }
  }

  /** The lines a client sees over several connections, each given by its stream. */
  function SeenLines(streams: seq<string>): seq<string> {
    Complete(Flatten(streams))
  }

  /** The complete lines of every connection for itself. */
  function SentLines(streams: seq<string>): seq<string> {
    Flatten(Map(Complete, streams))
  }

  predicate CutOffs(streams: seq<string>, i: nat, j: nat)
    requires i < j < |streams|
  {
    Rest(streams[i]) != "" && Complete(streams[j]) != []
  }

  /** No connection that was cut off inside a line is followed by one that completes a line. */
  predicate NothingGlued(streams: seq<string>) {
    forall i, j :: 0 <= i < j < |streams| ==> !CutOffs(streams, i, j)
  }

  predicate NoRests(streams: seq<string>) {
    forall i :: 0 <= i < |streams| ==> Rest(streams[i]) == ""
  }

  lemma NothingGluedSnoc(streams: seq<string>, s: string)
    ensures NothingGlued(streams + [s]) <==> (NothingGlued(streams) && (Complete(s) == [] || NoRests(streams)))
  {
    hide Complete, Rest;
    var all := streams + [s];
    forall i, j | 0 <= i < j < |streams| ensures CutOffs(all, i, j) == CutOffs(streams, i, j) {
    }
    forall i | 0 <= i < |streams| ensures CutOffs(all, i, |streams|) == (Rest(streams[i]) != "" && Complete(s) != []) {
    }
    if NothingGlued(all) {
      forall i, j | 0 <= i < j < |streams| ensures !CutOffs(streams, i, j) { assert !CutOffs(all, i, j); }
      forall i | 0 <= i < |streams| && Complete(s) != [] ensures Rest(streams[i]) == "" {
        assert !CutOffs(all, i, |streams|);
      }
    }
  }

  lemma NoRestsSnoc(streams: seq<string>, s: string)
    ensures NoRests(streams + [s]) <==> (NoRests(streams) && Rest(s) == "")
  {
    hide Rest;
    var all := streams + [s];
    if NoRests(all) {
      forall i | 0 <= i < |streams| ensures Rest(streams[i]) == "" { assert all[i] == streams[i]; }
      assert all[|streams|] == s;
    }
  }

  /** What is kept from one connection to the next. */
  lemma KeptBetween(before: string, s: string)
    ensures |Complete(Rest(before) + s)| == |Complete(s)|
    ensures Complete(Rest(before) + s) == Complete(s) <==> (Rest(before) == "" || Complete(s) == [])
    ensures Rest(Rest(before) + s) == if Complete(s) == [] then Rest(before) + Rest(s) else Rest(s)
  {
    hide Pieces;
    var r, ps := Rest(before), Pieces(s);
    PiecesAreTheStream(before);
    PiecesBehind(r, s);
    LongerDiffers(r, ps[0]);
    if |ps| > 1 {
      assert Complete(r + s)[0] == r + ps[0] && Complete(s)[0] == ps[0];
    }
  }

  lemma NoStreams()
    ensures Flatten<char>([]) == [] && Flatten<string>([]) == [] && Pieces("") == [""] && Map(Complete, []) == []
  {
    PiecesWhole("");
  }

  lemma {:induction false} RestOfAll(streams: seq<string>)
    requires NothingGlued(streams)
    ensures Rest(Flatten(streams)) == "" <==> NoRests(streams)
    decreases |streams|
  {
    hide Pieces, Flatten, NothingGlued, NoRests, Complete, Rest;
    NoStreams();
    if streams == [] {
      RestOfNothing();
    } else {
      var front, s := streams[..|streams| - 1], streams[|streams| - 1];
      assert streams == front + [s];
      FlattenAppend(front, [s]);
      FlattenOne(s);
      NothingGluedSnoc(front, s);
      NoRestsSnoc(front, s);
      RestOfAll(front);
      CompleteConcat(Flatten(front), s);
      KeptBetween(Flatten(front), s);
    }
  }

  lemma RestOfNothing()
    ensures Rest("") == "" && Complete("") == [] && NoRests([]) && NothingGlued([])
  {
    PiecesWhole("");
  }

  lemma SameParts(a: seq<string>, b: seq<string>, c: seq<string>, d: seq<string>)
    requires |b| == |d|
    ensures a + b == c + d <==> (a == c && b == d)
  {
    if a + b == c + d {
      assert |a| == |c|;
      assert (a + b)[..|a|] == a && (c + d)[..|c|] == c;
      assert (a + b)[|a|..] == b && (c + d)[|c|..] == d;
    }
  }

  /** Over any connections, the client sees the complete lines that each of them delivered exactly
      when no cut-off line is followed by a later connection's line end. */
  lemma {:induction false} ReconnectsExactly(streams: seq<string>)
    ensures SeenLines(streams) == SentLines(streams) <==> NothingGlued(streams)
    decreases |streams|
  {
    hide Pieces, Flatten, NothingGlued, NoRests, Complete, Rest, Map;
    NoStreams();
    if streams == [] {
      RestOfNothing();
    } else {
      var front, s := streams[..|streams| - 1], streams[|streams| - 1];
      assert streams == front + [s];
      FlattenAppend(front, [s]);
      FlattenOne(s);
      MapAppend(Complete, front, [s]);
      assert Map(Complete, [s]) == [Complete(s)];
      FlattenAppend(Map(Complete, front), [Complete(s)]);
      FlattenOne(Complete(s));
      NothingGluedSnoc(front, s);
      ReconnectsExactly(front);
      CompleteConcat(Flatten(front), s);
      KeptBetween(Flatten(front), s);
      SameParts(Complete(Flatten(front)), Complete(Rest(Flatten(front)) + s), SentLines(front), Complete(s));
      if NothingGlued(front) { RestOfAll(front); }
    }
  }

  lemma OneLine(l: string)
    requires NoNewline(l)
    ensures Complete(l + "\n") == [l] && Rest(l + "\n") == ""
  {
    hide FirstIndex, Pieces;
    forall i | 0 <= i < |l| ensures !IsBreak(l[i]) {
    }
    FirstIndexOf(IsBreak, l, "\n");
    assert (l + "\n")[..|l|] == l && (l + "\n")[|l| + 1..] == "";
    PiecesCut(l + "\n", |l|);
    PiecesWhole("");
  }

  /** A connection that is cut off behind one brace, and one that sends an empty object: what the
      client sees is one line that is no message. */
  lemma GluedExample()
    ensures SentLines(["{", "{}\n"]) == ["{}"] && SeenLines(["{", "{}\n"]) == ["{{}"]
  {
    hide Pieces, Complete, Rest, Flatten;
    var streams := ["{", "{}\n"];
    assert streams == ["{"] + ["{}\n"];
    FlattenAppend(["{"], ["{}\n"]);
    FlattenOne("{");
    FlattenOne("{}\n");
    assert "{" + "{}\n" == "{{}" + "\n";
    OneLine("{{}");
    OneLine("{}");
    assert "{}" + "\n" == "{}\n";
    NoBreaksIsOne("{");
    NothingComplete("{");
    assert Map(Complete, streams) == [[]] + [["{}"]];
    FlattenAppend([[]], [["{}"]]);
    FlattenOne<string>([]);
    FlattenOne(["{}"]);
    assert [] + ["{}"] == ["{}"];
  }

  lemma NothingComplete(s: string)
    requires Pieces(s) == [s]
    ensures Complete(s) == []
  {
  }

  /** A new client with some handlers, through several connections, each given by its chunks. */
  method Sessions<M>(parse: string -> Option<M>, handlers: seq<M -> bool>, sessions: seq<seq<string>>)
    returns (c: Client<M>)
    ensures fresh(c) && c.Valid() && c.parse == parse && c.handlers == handlers && !c.connected
    ensures c.events == EventsOf(parse, handlers, SeenLines(Map(Flatten, sessions)))
    ensures c.buffer == Rest(Flatten(Map(Flatten, sessions)))
  {
    hide Pieces, EventsOf, Flatten, Map;
    c := new Client(parse);
    for k := 0 to |handlers|
      invariant fresh(c) && c.Valid() && c.parse == parse && c.handlers == handlers[..k]
      invariant !c.connected && c.events == [] && c.stream == ""
    {
      c.OnMessage(handlers[k]);
    }
    NoStreams();
    NoEvents(parse, handlers);
    RestOfNothing();
    assert Map(Flatten<char>, sessions[..0]) == [];
    for i := 0 to |sessions|
      invariant fresh(c) && c.Valid() && c.parse == parse && c.handlers == handlers && !c.connected
      invariant c.stream == Flatten(Map(Flatten, sessions[..i]))
      invariant c.events == EventsOf(parse, handlers, Complete(c.stream))
    {
      SessionNext(sessions, i);
      ghost var before := c.stream;
      CompleteConcat(before, Flatten(sessions[i]));
      EventsAppend(parse, handlers, Complete(before), Complete(Rest(before) + Flatten(sessions[i])));
      c.OnConnect();
      Receive(c, sessions[i]);
      c.OnClose();
    }
    assert sessions[..|sessions|] == sessions;
  }

  lemma SessionNext(sessions: seq<seq<string>>, i: nat)
    requires i < |sessions|
    ensures Flatten(Map(Flatten, sessions[..i + 1])) == Flatten(Map(Flatten, sessions[..i])) + Flatten(sessions[i])
  {
    hide Flatten;
    assert sessions[..i + 1] == sessions[..i] + [sessions[i]];
    MapAppend(Flatten<char>, sessions[..i], [sessions[i]]);
    assert Map(Flatten<char>, [sessions[i]]) == [Flatten(sessions[i])];
    FlattenAppend(Map(Flatten<char>, sessions[..i]), [Flatten(sessions[i])]);
    FlattenOne(Flatten(sessions[i]));
  }
}
