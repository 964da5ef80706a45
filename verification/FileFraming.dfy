/** Sending a file over a byte stream and finding its end by the marker "\r\n"
    (task16/server.c, task16/client.c). The stream reaches the receiver in arbitrary reads. */
module FileFraming {

  type Byte = b: int | 0 <= b < 256

  const CR: Byte := 13
  const LF: Byte := 10
  const MARKER: seq<Byte> := [CR, LF]
  const BUFFER_SIZE := 4096

  function Flatten(chunks: seq<seq<Byte>>): seq<Byte> {
    if chunks == [] then [] else chunks[0] + Flatten(chunks[1..])
  }

  /** `chunks` is a way for the stream to arrive in reads. */
  ghost predicate Delivers(chunks: seq<seq<Byte>>, stream: seq<Byte>) {
    && (forall i :: 0 <= i < |chunks| ==> 1 <= |chunks[i]| <= BUFFER_SIZE)
    && Flatten(chunks) == stream
  }

  predicate EndsWithMarker(c: seq<Byte>) {
    |c| > 1 && c[|c| - 2] == CR && c[|c| - 1] == LF
  }

  /** What the receiver has written, how many reads it made, and whether it stopped. */
  datatype Received = Received(output: seq<Byte>, used: nat, ended: bool)

  function Receive(chunks: seq<seq<Byte>>): Received {
    if chunks == [] then Received([], 0, false)
    else if EndsWithMarker(chunks[0]) then Received(chunks[0][..|chunks[0]| - 2], 1, true)
    else
      var r := Receive(chunks[1..]);
      Received(chunks[0] + r.output, r.used + 1, r.ended)
  }

  /** The receive loop of task16/client.c; without a further read it waits. */
  method ReceiveFile(chunks: seq<seq<Byte>>) returns (output: seq<Byte>, used: nat, ended: bool)
    ensures Received(output, used, ended) == Receive(chunks)
  {
    output, used, ended := [], 0, false;
    while used < |chunks|
      invariant used <= |chunks| && !ended
      invariant var r := Receive(chunks[used..]);
                Receive(chunks) == Received(output + r.output, used + r.used, r.ended)
    {
      var buf := chunks[used];
      ghost var r := Receive(chunks[used..]);
      ghost var before := output;
      assert chunks[used..][1..] == chunks[used + 1..];
      var isEnd := |buf| > 1 && buf[|buf| - 2] == CR && buf[|buf| - 1] == LF;
      output := output + (if isEnd then buf[..|buf| - 2] else buf);
      used := used + 1;
      if isEnd {
        ended := true;
        return;
      }
      assert before + r.output == output + Receive(chunks[used..]).output;
    }
  }

  /** The send loop of task16/server.c: the whole file, whatever the size of each read, and then
      the marker. */
  method SendFile(file: seq<Byte>) returns (stream: seq<Byte>)
    ensures stream == file + MARKER
    ensures |stream| == |file| + 2 && stream[..|file|] == file
    ensures stream[|file|] == '\r' as int && stream[|file| + 1] == '\n' as int
  {
    var offset := 0;
    stream := [];
    while offset < |file|
      invariant offset <= |file| && stream == file[..offset]
    {
      var bytes :| 1 <= bytes <= BUFFER_SIZE && offset + bytes <= |file|;
      var buff := file[offset..offset + bytes];
      stream := stream + buff;
      offset := offset + bytes;
    }
    stream := stream + MARKER;
  }

  // ---- when the framing works ----

  function Last(s: seq<Byte>, k: nat): Byte
    requires k < |s|
  {
    s[|s| - 1 - k]
  }

  lemma {:induction false} FlattenLast(chunks: seq<seq<Byte>>, k: nat)
    requires chunks != [] && k < |chunks[|chunks| - 1]|
    ensures k < |Flatten(chunks)| && Last(Flatten(chunks), k) == Last(chunks[|chunks| - 1], k)
    decreases |chunks|
  {
    if |chunks| == 1 {
      assert Flatten(chunks) == chunks[0] + Flatten(chunks[1..]) == chunks[0];
    } else {
      FlattenLast(chunks[1..], k);
    }
  }

  lemma {:induction false} ReceiveNone(chunks: seq<seq<Byte>>)
    requires forall i :: 0 <= i < |chunks| ==> !EndsWithMarker(chunks[i])
    ensures Receive(chunks) == Received(Flatten(chunks), |chunks|, false)
  {
    if chunks != [] {
      ReceiveNone(chunks[1..]);
    }
  }

  lemma {:induction false} ReceiveFirst(chunks: seq<seq<Byte>>, k: nat)
    requires k < |chunks| && EndsWithMarker(chunks[k])
    requires forall i :: 0 <= i < k ==> !EndsWithMarker(chunks[i])
    ensures var r := Receive(chunks);
            r.used == k + 1 && r.ended && r.output + MARKER + Flatten(chunks[k + 1..]) == Flatten(chunks)
  {
    var c := chunks[0];
    if k == 0 {
      assert c == c[..|c| - 2] + MARKER;
    } else {
      ReceiveFirst(chunks[1..], k - 1);
      assert chunks[1..][k..] == chunks[k + 1..];
      var r := Receive(chunks[1..]);
      assert (c + r.output) + MARKER + Flatten(chunks[k + 1..]) == c + (r.output + MARKER + Flatten(chunks[k + 1..]));
    }
  }

  /** No read but the last ends in the marker, and the last one has at least two bytes. */
  ghost predicate CleanSplit(chunks: seq<seq<Byte>>) {
    && chunks != []
    && (forall i :: 0 <= i < |chunks| - 1 ==> !EndsWithMarker(chunks[i]))
    && |chunks[|chunks| - 1]| >= 2
  }

  ghost predicate RoundTrips(file: seq<Byte>, chunks: seq<seq<Byte>>) {
    Receive(chunks) == Received(file, |chunks|, true)
  }

  lemma LastReadEndsStream(file: seq<Byte>, chunks: seq<seq<Byte>>)
    requires Delivers(chunks, file + MARKER)
    ensures chunks != []
    ensures EndsWithMarker(chunks[|chunks| - 1]) <==> |chunks[|chunks| - 1]| >= 2
  {
    FlattenLast(chunks, 0);
    if |chunks[|chunks| - 1]| >= 2 {
      FlattenLast(chunks, 1);
    }
  }

  lemma StripMarker(output: seq<Byte>, file: seq<Byte>)
    requires output + MARKER + [] == file + MARKER
    ensures output == file
  {
    assert output + MARKER + [] == output + MARKER;
    assert output == (output + MARKER)[..|output|];
    assert file == (file + MARKER)[..|file|];
  }

  lemma StopsAtLast(file: seq<Byte>, chunks: seq<seq<Byte>>)
    requires Flatten(chunks) == file + MARKER && chunks != [] && EndsWithMarker(chunks[|chunks| - 1])
    requires forall i :: 0 <= i < |chunks| - 1 ==> !EndsWithMarker(chunks[i])
    ensures RoundTrips(file, chunks)
  {
    ReceiveFirst(chunks, |chunks| - 1);
    assert chunks[|chunks|..] == [];
    StripMarker(Receive(chunks).output, file);
  }

  /** The first read that ends in the marker, or the number of reads if there is none. */
  lemma FirstMarker(chunks: seq<seq<Byte>>) returns (k: nat)
    ensures k <= |chunks| && forall i :: 0 <= i < k ==> !EndsWithMarker(chunks[i])
    ensures k < |chunks| ==> EndsWithMarker(chunks[k])
  {
    k := 0;
    while k < |chunks| && !EndsWithMarker(chunks[k])
      invariant k <= |chunks| && forall i :: 0 <= i < k ==> !EndsWithMarker(chunks[i])
    {
      k := k + 1;
    }
  }

  /** For every file and every way its stream arrives, the receiver stops exactly at the last read
      with exactly the file if and only if the split is clean. */
  lemma FramingRoundTrip(file: seq<Byte>, chunks: seq<seq<Byte>>)
    requires Delivers(chunks, file + MARKER)
    ensures RoundTrips(file, chunks) <==> CleanSplit(chunks)
  {
    LastReadEndsStream(file, chunks);
    var k := FirstMarker(chunks);
    if k == |chunks| {
      ReceiveNone(chunks);
    } else if k == |chunks| - 1 {
      StopsAtLast(file, chunks);
    } else {
      ReceiveFirst(chunks, k);
    }
  }

  /** The two ways to fail. Stopping early loses the end of the file: the output is a proper
      prefix of it. Not stopping at all leaves the receiver waiting with the marker written out as
      part of the file, while the sender has nothing more to send. */
  lemma FramingFailures(file: seq<Byte>, chunks: seq<seq<Byte>>)
    requires Delivers(chunks, file + MARKER) && !RoundTrips(file, chunks)
    ensures var r := Receive(chunks);
            if r.ended then r.used < |chunks| && |r.output| < |file| && r.output == file[..|r.output|]
            else r.used == |chunks| && r.output == file + MARKER
  {
    FramingRoundTrip(file, chunks);
    LastReadEndsStream(file, chunks);
    var k := FirstMarker(chunks);
    if k < |chunks| {
      ReceiveFirst(chunks, k);
      var r, rest := Receive(chunks), Flatten(chunks[k + 1..]);
      if k < |chunks| - 1 {
        assert chunks[k + 1..][0] == chunks[k + 1];
        assert |rest| >= 1;
        assert r.output == (r.output + MARKER + rest)[..|r.output|] == (file + MARKER)[..|r.output|];
      }
    } else {
      ReceiveNone(chunks);
    }
  }

  /** A stream can arrive in a single read, and is then received, exactly if the file has at most
      4094 bytes; a longer one is always cut somewhere. */
  lemma OneReadForSmallFiles(file: seq<Byte>)
    ensures Delivers([file + MARKER], file + MARKER) <==> |file| <= 4094
    ensures RoundTrips(file, [file + MARKER])
  {
    var chunks := [file + MARKER];
    assert Flatten(chunks) == chunks[0] + Flatten(chunks[1..]) == file + MARKER;
    if |file| > 4094 {
      assert |chunks[0]| > BUFFER_SIZE;
    }
    StopsAtLast(file, chunks);
  }

  function Singles(s: seq<Byte>): seq<seq<Byte>> {
    if s == [] then [] else [[s[0]]] + Singles(s[1..])
  }

  lemma {:induction false} SinglesShape(s: seq<Byte>)
    ensures |Singles(s)| == |s| && forall i :: 0 <= i < |s| ==> Singles(s)[i] == [s[i]]
  {
    if s != [] {
      SinglesShape(s[1..]);
    }
  }

  lemma FlattenCons(c: seq<Byte>, rest: seq<seq<Byte>>)
    ensures Flatten([c] + rest) == c + Flatten(rest)
  {
    assert ([c] + rest)[1..] == rest;
  }

  lemma {:induction false} FlattenSingles(s: seq<Byte>, tail: seq<seq<Byte>>)
    ensures Flatten(Singles(s) + tail) == s + Flatten(tail)
    decreases |s|
  {
    if s == [] {
      assert Singles(s) + tail == tail;
    } else {
      var rest := Singles(s[1..]) + tail;
      FlattenSingles(s[1..], tail);
      FlattenCons([s[0]], rest);
      assert Singles(s) + tail == [[s[0]]] + rest;
      assert [s[0]] + (s[1..] + Flatten(tail)) == s + Flatten(tail);
    }
  }

  lemma SinglesDeliver(s: seq<Byte>, tail: seq<seq<Byte>>)
    requires forall i :: 0 <= i < |tail| ==> 1 <= |tail[i]| <= BUFFER_SIZE
    ensures Delivers(Singles(s) + tail, s + Flatten(tail))
    ensures |Singles(s)| == |s| && forall i :: 0 <= i < |s| ==> |Singles(s)[i]| == 1
  {
    SinglesShape(s);
    FlattenSingles(s, tail);
  }

  /** The outcome depends on how the stream is cut, never on the file alone: every file has a
      split that round-trips and one that leaves the receiver waiting for ever. */
  lemma EveryFileHasBothSplits(file: seq<Byte>) returns (good: seq<seq<Byte>>, bad: seq<seq<Byte>>)
    ensures Delivers(good, file + MARKER) && RoundTrips(file, good)
    ensures Delivers(bad, file + MARKER) && !Receive(bad).ended
  {
    good, bad := Singles(file) + [MARKER], Singles(file) + [[CR], [LF]];
    assert Flatten([MARKER]) == MARKER + Flatten([MARKER][1..]) == MARKER;
    SinglesDeliver(file, [MARKER]);
    FramingRoundTrip(file, good);
    assert [[CR], [LF]][1..] == [[LF]];
    assert Flatten([[LF]]) == [LF] + Flatten([[LF]][1..]) == [LF];
    assert Flatten([[CR], [LF]]) == [CR] + [LF] == MARKER;
    SinglesDeliver(file, [[CR], [LF]]);
    ReceiveNone(bad);
  }
}
