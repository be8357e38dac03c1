/** The elevated copy writes wide characters into a pipe, the first process reads bytes out of it:
    whatever sizes the system chooses for writes, reads and console output, the text arrives. */
module PipeTransfer {
  import opened Text

  newtype Wide = x: int | 0 <= x < 65536

  const MAXDWORD := 0xFFFF_FFFF

  function Bytes(text: seq<Wide>): (r: seq<Byte>)
    ensures |r| == 2 * |text|
  {
    if text == [] then [] else [LowByte(text[0]), HighByte(text[0])] + Bytes(text[1..])
  }

  /** The characters in the bytes, an odd last byte left over. */
  function Chars(bytes: seq<Byte>): (r: seq<Wide>)
    ensures |r| == |bytes| / 2
  {
    if |bytes| < 2 then [] else [Pair(bytes[0], bytes[1])] + Chars(bytes[2..])
  }

  function Leftover(bytes: seq<Byte>): seq<Byte> {
    bytes[|bytes| / 2 * 2..]
  }

  function LowByte(w: Wide): Byte {
    (w % 256) as Byte
  }

  function HighByte(w: Wide): Byte {
    (w / 256) as Byte
  }

  function Pair(low: Byte, high: Byte): Wide {
    low as Wide + high as Wide * 256
  }

  lemma PairSplits(low: Byte, high: Byte)
    ensures LowByte(Pair(low, high)) == low && HighByte(Pair(low, high)) == high
  {}

  lemma SplitPairs(w: Wide)
    ensures Pair(LowByte(w), HighByte(w)) == w
  {}

  /** The low byte travels first: a character below 256 is itself and a zero. */
  lemma NarrowBytes(w: Wide)
    requires w < 256
    ensures Bytes([w]) == [w as Byte, 0]
  {
    BytesCons(w, []);
    NilConcat([w]);
    NilConcat([w as Byte, 0 as Byte]);
    NoBytes();
    hide Bytes;
  }

  lemma BytesCons(w: Wide, tail: seq<Wide>)
    ensures Bytes([w] + tail) == [LowByte(w), HighByte(w)] + Bytes(tail)
  {
    hide LowByte, HighByte;
    assert ([w] + tail)[1..] == tail;
  }

  lemma CharsCons(low: Byte, high: Byte, rest: seq<Byte>)
    ensures Chars([low, high] + rest) == [Pair(low, high)] + Chars(rest)
  {
    hide Pair;
    assert ([low, high] + rest)[2..] == rest;
  }

  lemma {:induction false} CharsOfBytes(text: seq<Wide>, rest: seq<Byte>)
    ensures Chars(Bytes(text) + rest) == text + Chars(rest)
  {
    hide *;
    NoBytes();
    if text == [] {
      NilConcat(rest);
      NilConcat(Chars(rest));
    } else {
      var w, tail := text[0], text[1..];
      HeadTail(text);
      BytesCons(w, tail);
      CharsOfBytes(tail, rest);
      SplitPairs(w);
      CharsCons(LowByte(w), HighByte(w), Bytes(tail) + rest);
      Assoc([LowByte(w), HighByte(w)], Bytes(tail), rest);
      Assoc([w], tail, Chars(rest));
    }
  }

  lemma NoBytes()
    ensures Bytes([]) == []
  {}

  lemma {:induction false} BytesConcat(a: seq<Wide>, b: seq<Wide>)
    ensures Bytes(a + b) == Bytes(a) + Bytes(b)
  {
    if a == [] {
      assert a + b == b && Bytes(a) + Bytes(b) == Bytes(b);
    } else {
      assert (a + b)[1..] == a[1..] + b;
      BytesConcat(a[1..], b);
    }
  }

  lemma {:induction false} BytesOfChars(bytes: seq<Byte>)
    ensures Bytes(Chars(bytes)) + Leftover(bytes) == bytes
  {
    hide *;
    NoBytes();
    if |bytes| < 2 {
      TooShort(bytes);
      NilConcat(bytes);
    } else {
      var low, high, rest := bytes[0], bytes[1], bytes[2..];
      TwoAndRest(bytes);
      BytesOfChars(rest);
      CharsCons(low, high, rest);
      BytesCons(Pair(low, high), Chars(rest));
      PairSplits(low, high);
      LeftoverCons(low, high, rest);
      Assoc([low, high], Bytes(Chars(rest)), Leftover(rest));
    }
  }

  lemma TooShort(bytes: seq<Byte>)
    requires |bytes| < 2
    ensures Chars(bytes) == [] && Leftover(bytes) == bytes
  {}

  lemma TwoAndRest(bytes: seq<Byte>)
    requires |bytes| >= 2
    ensures bytes == [bytes[0], bytes[1]] + bytes[2..]
  {}

  lemma LeftoverCons(low: Byte, high: Byte, rest: seq<Byte>)
    ensures Leftover([low, high] + rest) == Leftover(rest)
  {}

  /** Only one way to read bytes as characters with less than one character left over. */
  lemma CharsUnique(text: seq<Wide>, rest: seq<Byte>, bytes: seq<Byte>)
    requires Bytes(text) + rest == bytes && |rest| < 2
    ensures text == Chars(bytes) && rest == Leftover(bytes)
  {
    CharsOfBytes(text, rest);
    assert Chars(rest) == [];
    assert text + [] == text;
    assert (Bytes(text) + rest)[2 * |text|..] == rest;
  }

  // ---------------------------------------------------------------- what the system answers

  /** Whether a call worked, and how much it said it took. */
  datatype Answer = Answer(ok: bool, count: nat)

  /** No call that worked took half a character. */
  predicate AllEven(answers: seq<Answer>) {
    forall i :: 0 <= i < |answers| && answers[i].ok ==> answers[i].count % 2 == 0
  }

  /** Every call worked and took something. */
  predicate AllShow(answers: seq<Answer>) {
    forall i :: 0 <= i < |answers| ==> answers[i].ok && answers[i].count > 0
  }

  lemma OneMoreAnswer(log: seq<Answer>, from: nat, r: Answer)
    requires from <= |log|
    ensures (log + [r])[from..] == log[from..] + [r]
    ensures AllEven((log + [r])[from..]) <==> AllEven(log[from..]) && (r.ok ==> r.count % 2 == 0)
    ensures AllShow((log + [r])[from..]) <==> AllShow(log[from..]) && r.ok && r.count > 0
  {
    var a, b := log[from..], (log + [r])[from..];
    assert b == a + [r];
    assert forall i :: 0 <= i < |a| ==> b[i] == a[i];
    assert b[|a|] == r;
  }

  lemma AnswersJoin(log: seq<Answer>, from: nat, mid: nat)
    requires from <= mid <= |log|
    ensures AllShow(log[from..]) <==> AllShow(log[from..mid]) && AllShow(log[mid..])
  {
    var a, b, c := log[from..mid], log[mid..], log[from..];
    assert c == a + b;
    assert forall i :: 0 <= i < |a| ==> c[i] == a[i];
    assert forall i :: 0 <= i < |b| ==> c[|a| + i] == b[i];
  }

  // ---------------------------------------------------------------- writing

  /** The writing end, with a record of every answer it gave. */
  class Pipe {
    var content: seq<Byte>
    ghost var log: seq<Answer>

    constructor ()
      ensures content == [] && log == []
    {
      content, log := [], [];
    }

    /** WriteFile: fails and adds nothing, or adds as many leading bytes as it says. */
    method WriteFile(data: seq<Byte>) returns (ok: bool, count: nat)
      modifies this
      ensures count <= |data|
      ensures content == if ok then old(content) + data[..count] else old(content)
      ensures log == old(log) + [Answer(ok, count)]
    {
      ok := *;
      var n: int := *;
      count := if 0 <= n <= |data| then n else |data|;
      if ok {
        content := content + data[..count];
      } else {
        assert content == content + data[..0];
      }
      log := log + [Answer(ok, count)];
    }
  }

  /** WidePipeBuffer::write. The pipe gains exactly the reported prefix if and only if no write that worked reported
      half a character; then anything less than the whole text was reported because the last write failed or took
      nothing. */
  method WriteText(pipe: Pipe, text: seq<Wide>) returns (completed: nat)
    modifies pipe
    ensures completed <= |text| && old(pipe.log) <= pipe.log
    ensures AllEven(pipe.log[|old(pipe.log)|..]) <==> pipe.content == old(pipe.content) + Bytes(text[..completed])
    ensures !AllEven(pipe.log[|old(pipe.log)|..]) ==> old(pipe.content) + Bytes(text[..completed]) < pipe.content
    ensures completed < |text| ==>
              && |pipe.log| > |old(pipe.log)|
              && var last := pipe.log[|pipe.log| - 1];
              !last.ok || last.count % 2 == 1 || last.count == 0
  {
    hide Bytes, AllEven;
    ghost var start, from := pipe.content, |pipe.log|;
    completed := 0;
    NothingWritten(start, text);
    NoAnswers(pipe.log);
    while completed < |text|
      invariant completed <= |text| && from <= |pipe.log| && old(pipe.log) <= pipe.log && AllEven(pipe.log[from..])
      invariant pipe.content == start + Bytes(text[..completed])
    {
      var remaining := |text| - completed;
      var characters := if remaining < MAXDWORD / 2 then remaining else MAXDWORD / 2;
      var data := Bytes(text[completed..completed + characters]);
      ghost var before := pipe.log;
      var ok, count := pipe.WriteFile(data);
      OneMoreAnswer(before, from, Answer(ok, count));
      if !ok {
        break;
      }
      PartWritten(start, text, completed, characters, count);
      if count % 2 != 0 {
        break;
      }
      completed := completed + count / 2;
      if count == 0 {
        break;
      }
    }
  }

  lemma NoAnswers(log: seq<Answer>)
    ensures AllEven(log[|log|..]) && AllShow(log[|log|..])
  {}

  lemma NothingWritten(start: seq<Byte>, text: seq<Wide>)
    ensures start + Bytes(text[..0]) == start
  {}

  /** What the pipe holds after one write that took `count` bytes. */
  lemma PartWritten(start: seq<Byte>, text: seq<Wide>, completed: nat, characters: nat, count: nat)
    requires completed + characters <= |text| && count <= 2 * characters
    ensures var data := Bytes(text[completed..completed + characters]);
            var now := start + Bytes(text[..completed]) + data[..count];
            if count % 2 == 0 then now == start + Bytes(text[..completed + count / 2])
            else start + Bytes(text[..completed]) < now && (|now| - |start|) % 2 == 1
  {
    var data := Bytes(text[completed..completed + characters]);
    assert start + Bytes(text[..completed]) + data[..count] == start + (Bytes(text[..completed]) + data[..count]);
    if count % 2 == 0 {
      WholeCharacters(text, completed, characters, count);
    }
  }

  lemma WholeCharacters(text: seq<Wide>, completed: nat, characters: nat, count: nat)
    requires completed + characters <= |text| && count <= 2 * characters
    ensures var data := Bytes(text[completed..completed + characters]);
            count % 2 == 0 ==>
              Bytes(text[..completed]) + data[..count] == Bytes(text[..completed + count / 2])
  {
    if count % 2 == 0 {
      var k := count / 2;
      var a, b := text[completed..completed + k], text[completed + k..completed + characters];
      assert text[completed..completed + characters] == a + b;
      BytesConcat(a, b);
      assert (Bytes(a) + Bytes(b))[..count] == Bytes(a);
      assert text[..completed + k] == text[..completed] + a;
      BytesConcat(text[..completed], a);
    }
  }

  // ---------------------------------------------------------------- reading

  /** The console the first process owns, with a record of every answer it gave. */
  class Console {
    var shown: seq<Wide>
    ghost var log: seq<Answer>

    constructor ()
      ensures shown == [] && log == []
    {
      shown, log := [], [];
    }

    /** WriteConsoleW: fails and shows nothing, or shows as many leading characters as it says. */
    method WriteConsole(text: seq<Wide>) returns (ok: bool, written: nat)
      modifies this
      ensures written <= |text|
      ensures shown == if ok then old(shown) + text[..written] else old(shown)
      ensures log == old(log) + [Answer(ok, written)]
    {
      ok := *;
      var n: int := *;
      written := if 0 <= n <= |text| then n else |text|;
      if ok {
        shown := shown + text[..written];
      }
      log := log + [Answer(ok, written)];
    }

    /** The inner loop: until everything is shown, or a call fails or shows nothing. All of the text is shown if
        and only if every call worked and showed something; otherwise a proper front of it. */
    method ShowAll(text: seq<Wide>)
      modifies this
      ensures old(log) <= log
      ensures AllShow(log[|old(log)|..]) <==> shown == old(shown) + text
      ensures !AllShow(log[|old(log)|..]) ==> |shown| < |old(shown)| + |text|
      ensures old(shown) <= shown <= old(shown) + text
    {
      hide AllShow;
      ghost var from := |log|;
      NoAnswers(log);
      var offset := 0;
      assert old(shown) + text[..0] == shown;
      while offset < |text|
        invariant offset <= |text| && shown == old(shown) + text[..offset]
        invariant from <= |log| && old(log) <= log && AllShow(log[from..])
      {
        ghost var before := log;
        var ok, written := WriteConsole(text[offset..]);
        OneMoreAnswer(before, from, Answer(ok, written));
        if !ok || written == 0 {
          assert shown == old(shown) + text[..offset];
          return;
        }
        assert text[..offset] + text[offset..][..written] == text[..offset + written];
        offset := offset + written;
      }
      assert text[..offset] == text;
    }
  }

  function Flatten(chunks: seq<seq<Byte>>): seq<Byte> {
    if chunks == [] then [] else chunks[0] + Flatten(chunks[1..])
  }

  lemma {:induction false} FlattenSnoc(chunks: seq<seq<Byte>>, last: seq<Byte>)
    ensures Flatten(chunks + [last]) == Flatten(chunks) + last
  {
    if chunks == [] {
      assert ([] + [last])[1..] == [];
      assert Flatten([last]) == last + [];
    } else {
      assert (chunks + [last])[1..] == chunks[1..] + [last];
      FlattenSnoc(chunks[1..], last);
      assert chunks[0] + (Flatten(chunks[1..]) + last) == chunks[0] + Flatten(chunks[1..]) + last;
    }
  }

  /** The reads the loop makes use of: those before the first that delivers nothing. */
  function Delivered(chunks: seq<seq<Byte>>): (r: seq<seq<Byte>>)
    ensures r <= chunks && forall i :: 0 <= i < |r| ==> r[i] != []
    ensures |r| < |chunks| ==> chunks[|r|] == []
  {
    if chunks == [] || chunks[0] == [] then [] else [chunks[0]] + Delivered(chunks[1..])
  }

  lemma {:induction false} DeliveredIs(chunks: seq<seq<Byte>>, n: nat)
    requires n <= |chunks| && (forall i :: 0 <= i < n ==> chunks[i] != []) && (n < |chunks| ==> chunks[n] == [])
    ensures Delivered(chunks) == chunks[..n]
  {
    if n > 0 {
      assert chunks[0] != [];
      DeliveredIs(chunks[1..], n - 1);
      assert [chunks[0]] + chunks[1..][..n - 1] == chunks[..n];
    }
  }

  /** The bytes the loop gets. */
  function Received(chunks: seq<seq<Byte>>): seq<Byte> {
    Flatten(Delivered(chunks))
  }

  /** The console branch of forwardPipeToOriginalOutput over the reads the system delivers, up to one of zero bytes.
      Whatever the console does, `pending` is always what the bytes read leave over, so no later character is
      misaligned; exactly the characters read are shown if and only if every console call of this loop worked and
      showed something, and otherwise fewer. */
  method ForwardToConsole(console: Console, chunks: seq<seq<Byte>>) returns (pending: seq<Byte>)
    modifies console
    ensures pending == Leftover(Received(chunks)) && |pending| < 2
    ensures old(console.log) <= console.log && old(console.shown) <= console.shown
    ensures AllShow(console.log[|old(console.log)|..]) <==>
            console.shown == old(console.shown) + Chars(Received(chunks))
    ensures |console.shown| <= |old(console.shown)| + |Chars(Received(chunks))|
  {
    hide Chars, Leftover, Flatten, AllShow;
    ghost var start, from := console.shown, |console.log|;
    pending := [];
    NothingRead();
    NoAnswers(console.log);
    assert start == start + [];
    var i := 0;
    while i < |chunks| && chunks[i] != []
      invariant i <= |chunks| && forall k :: 0 <= k < i ==> chunks[k] != []
      invariant pending == Leftover(Flatten(chunks[..i])) && |pending| < 2
      invariant from <= |console.log| && old(console.log) <= console.log && start <= console.shown
      invariant AllShow(console.log[from..]) ==> console.shown == start + Chars(Flatten(chunks[..i]))
      invariant !AllShow(console.log[from..]) ==> |console.shown| < |start| + |Chars(Flatten(chunks[..i]))|
    {
      assert chunks[..i + 1] == chunks[..i] + [chunks[i]];
      FlattenSnoc(chunks[..i], chunks[i]);
      ghost var before, log := Flatten(chunks[..i]), console.log;
      MoreChars(before, chunks[i]);
      LeftoverShort(pending + chunks[i]);
      pending := ReadMore(console, pending, chunks[i]);
      AnswersJoin(console.log, from, |log|);
      assert console.log[from..|log|] == log[from..];
      Regroup(start, Chars(before), Chars(Leftover(before) + chunks[i]));
      i := i + 1;
    }
    DeliveredIs(chunks, i);
  }

  lemma NothingRead()
    ensures Leftover(Flatten([])) == [] && Chars(Flatten([])) == []
  {}

  lemma LeftoverShort(bytes: seq<Byte>)
    ensures |Leftover(bytes)| < 2
  {}

  lemma Regroup(a: seq<Wide>, b: seq<Wide>, c: seq<Wide>)
    ensures a + b + c == a + (b + c)
  {}

  /** One turn of its outer loop. */
  method ReadMore(console: Console, pending: seq<Byte>, chunk: seq<Byte>) returns (rest: seq<Byte>)
    modifies console
    ensures rest == Leftover(pending + chunk)
    ensures old(console.log) <= console.log
    ensures AllShow(console.log[|old(console.log)|..]) <==> console.shown == old(console.shown) + Chars(pending + chunk)
    ensures !AllShow(console.log[|old(console.log)|..]) ==>
              |console.shown| < |old(console.shown)| + |Chars(pending + chunk)|
    ensures old(console.shown) <= console.shown <= old(console.shown) + Chars(pending + chunk)
  {
    rest := pending + chunk;
    NoAnswers(console.log);
    var characters := |rest| / 2;
    if characters == 0 {
      assert Chars(rest) == [] && console.shown + [] == console.shown;
      assert rest[0..] == rest;
      return;
    }
    var text := Chars(rest);
    console.ShowAll(text);
    rest := rest[characters * 2..];
  }

  /** Reading on from what was left over continues the same characters. */
  lemma MoreChars(before: seq<Byte>, chunk: seq<Byte>)
    ensures Chars(before + chunk) == Chars(before) + Chars(Leftover(before) + chunk)
    ensures Leftover(before + chunk) == Leftover(Leftover(before) + chunk)
  {
    hide *;
    var cs, rest := Chars(before), Leftover(before) + chunk;
    BytesOfChars(before);
    Assoc(Bytes(cs), Leftover(before), chunk);
    CharsOfBytes(cs, rest);
    LeftoverAfter(Bytes(cs), rest, |cs|);
  }

  lemma LeftoverAfter(even: seq<Byte>, rest: seq<Byte>, k: nat)
    requires |even| == 2 * k
    ensures Leftover(even + rest) == Leftover(rest)
  {
    assert |even + rest| / 2 * 2 == |even| + |rest| / 2 * 2;
  }

  /** Main result: two loops that receive the same bytes, cut in whatever ways, keep the same byte over, and if the
      consoles work they show the same text. */
  method ChunkingDoesNotMatter(a: Console, b: Console, chunksA: seq<seq<Byte>>, chunksB: seq<seq<Byte>>)
    returns (pendingA: seq<Byte>, pendingB: seq<Byte>)
    requires a != b && a.shown == b.shown && Received(chunksA) == Received(chunksB)
    modifies a, b
    ensures pendingA == pendingB && old(a.log) <= a.log && old(b.log) <= b.log
    ensures AllShow(a.log[|old(a.log)|..]) && AllShow(b.log[|old(b.log)|..]) ==> a.shown == b.shown
  {
    hide Chars, Leftover, Received, AllShow;
    pendingA := ForwardToConsole(a, chunksA);
    pendingB := ForwardToConsole(b, chunksB);
  }

  /** What is shown is decided by the bytes alone: it is the only text whose bytes, followed by less than one
      character, are the bytes received. */
  lemma ShownIsUnique(text: seq<Wide>, rest: seq<Byte>, chunks: seq<seq<Byte>>)
    ensures text == Chars(Received(chunks)) && rest == Leftover(Received(chunks)) <==>
            Bytes(text) + rest == Received(chunks) && |rest| < 2
  {
    hide Bytes, Chars, Leftover, Received;
    var bytes := Received(chunks);
    BytesOfChars(bytes);
    LeftoverShort(bytes);
    if Bytes(text) + rest == bytes && |rest| < 2 {
      CharsUnique(text, rest, bytes);
    }
  }

  /** Main result, both ends: if no write that worked reported half a character, every console call worked and showed
      something, and the reads deliver what was written, the console shows exactly the prefix the writer reported,
      with nothing pending. */
  method Transfer(pipe: Pipe, console: Console, text: seq<Wide>, chunks: seq<seq<Byte>>)
    returns (completed: nat, pending: seq<Byte>)
    requires pipe.content == [] && console.shown == []
    modifies pipe, console
    ensures completed <= |text| && old(pipe.log) <= pipe.log && old(console.log) <= console.log
    ensures AllEven(pipe.log[|old(pipe.log)|..]) && AllShow(console.log[|old(console.log)|..])
            && Received(chunks) == pipe.content ==>
              console.shown == text[..completed] && pending == []
  {
    hide Received, AllEven, AllShow;
    completed := WriteText(pipe, text);
    ghost var sent := pipe.content;
    pending := ForwardToConsole(console, chunks);
    if sent == Bytes(text[..completed]) && Received(chunks) == sent {
      var part := text[..completed];
      assert sent == Bytes(part) + [];
      CharsUnique(part, [], sent);
    }
  }
}
