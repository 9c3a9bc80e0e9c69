/**
 * The multipart/form-data body the image upload sends: a list of parts (literal
 * strings and open files) read through one cursor, `@part_no` and `@part_offset`,
 * so that the HTTP client can pull the body in chunks of any size.
 */
module Multipart {
  import opened Wrappers
  import opened RubyText

  function Min(a: int, b: int): int
  {
    if a < b then a else b
  }

  // ---------------------------------------------------------------------------
  // Files and parts
  // ---------------------------------------------------------------------------

  /** A file opened with `File.open(path, "rb")`: its bytes, and the position of the
      next read. */
  class FileStream {
    const content: string
    var pos: nat
    var closed: bool

    constructor Open(bytes: string)
      ensures content == bytes && pos == 0 && !closed
    {
      content := bytes;
      pos := 0;
      closed := false;
    }

    /** `IO#read(length)`: up to `length` bytes from the position on, nil at the end of
        the file when `length` is positive, "" when it is zero. */
    method Read(length: nat) returns (s: Option<string>)
      requires pos <= |content|
      modifies this`pos
      ensures length > 0 && old(pos) == |content| ==> s.None? && pos == old(pos)
      ensures !(length > 0 && old(pos) == |content|) ==>
        pos == Min(old(pos) + length, |content|) && s == Some(content[old(pos)..pos])
    {
      if length > 0 && pos == |content| {
        return None;
      }
      var stop := Min(pos + length, |content|);
      s := Some(content[pos..stop]);
      pos := stop;
    }

    /** `IO#close`. */
    method Close()
      modifies this`closed
      ensures closed
    {
      closed := true;
    }
  }

  /** `StringPart.new(str)` or `StreamPart.new(stream, size)`. */
  datatype Part = StringPart(str: string) | StreamPart(stream: FileStream, size: nat)

  /** `part.size`: the string's length, or the size given for the stream. */
  function PartSize(p: Part): nat
  {
    match p
    case StringPart(str) => |str|
    case StreamPart(_, size) => size
  }

  /** The characters a part stands for. */
  function PartText(p: Part): string
  {
    match p
    case StringPart(str) => str
    case StreamPart(stream, _) => stream.content
  }

  /** `StringPart#read(offset, how_much)`, that is `str[offset, how_much]`: nil past the
      end of the string, else at most `how_much` characters from `offset`. */
  function StringRead(str: string, offset: nat, howMuch: nat): (r: Option<string>)
    ensures r.None? <==> offset > |str|
    ensures r.Some? ==> |r.value| == Min(howMuch, |str| - offset) && r.value == str[offset..offset + |r.value|]
  {
    if offset > |str| then None else Some(str[offset..Min(offset + howMuch, |str|)])
  }

  /** The stream a part reads from, if any. */
  function PartStreams(p: Part): set<FileStream>
  {
    if p.StreamPart? then {p.stream} else {}
  }

  /** The streams of a list of parts. */
  function StreamsOf(parts: seq<Part>): set<FileStream>
  {
    set i | 0 <= i < |parts| && parts[i].StreamPart? :: parts[i].stream
  }

  /** `part.read(offset, how_much)` on a part whose stream (if any) stands at `offset`:
      a stream ignores the offset and reads on from where it is, which yields the same
      characters. */
  method ReadPart(p: Part, offset: nat, howMuch: nat) returns (s: Option<string>)
    requires offset + howMuch <= PartSize(p)
    requires p.StreamPart? ==> p.size == |p.stream.content| && p.stream.pos == offset
    modifies PartStreams(p)`pos
    ensures s == Some(PartText(p)[offset..offset + howMuch])
    ensures p.StreamPart? ==> p.stream.pos == offset + howMuch
  {
    match p
    case StringPart(str) =>
      s := StringRead(str, offset, howMuch);
    case StreamPart(stream, _) =>
      s := stream.Read(howMuch);
  }

  // ---------------------------------------------------------------------------
  // The body as one string
  // ---------------------------------------------------------------------------

  /** The texts one after another. */
  function Concat(ts: seq<string>): string
  {
    if ts == [] then [] else Concat(ts[..|ts| - 1]) + ts[|ts| - 1]
  }

  /** The sizes summed in order, as the `size` loop does. */
  function SumSizes(parts: seq<Part>): nat
  {
    if parts == [] then 0 else SumSizes(parts[..|parts| - 1]) + PartSize(parts[|parts| - 1])
  }

  /** The texts of the parts. */
  function Texts(parts: seq<Part>): (r: seq<string>)
    ensures |r| == |parts| && forall i :: 0 <= i < |parts| ==> r[i] == PartText(parts[i])
  {
    seq(|parts|, i requires 0 <= i < |parts| => PartText(parts[i]))
  }

  /** Every stream part's size is the length of its file. */
  predicate SizesAgree(parts: seq<Part>)
  {
    forall i :: 0 <= i < |parts| && parts[i].StreamPart? ==> parts[i].size == |parts[i].stream.content|
  }

  /** Concatenation splits at any point. */
  lemma {:induction false} ConcatAppend(a: seq<string>, b: seq<string>)
    ensures Concat(a + b) == Concat(a) + Concat(b)
    decreases |b|
  {
    if b == [] {
      assert a + b == a;
    } else {
      var front := b[..|b| - 1];
      ConcatAppend(a, front);
      assert (a + b)[..|a + b| - 1] == a + front;
      assert (a + b)[|a + b| - 1] == b[|b| - 1];
      assert front + [b[|b| - 1]] == b;
    }
  }

  /** The concatenation from part `i` on starts with part `i`. */
  lemma ConcatFrom(ts: seq<string>, i: nat)
    requires i < |ts|
    ensures Concat(ts[i..]) == ts[i] + Concat(ts[i + 1..])
  {
    var rest := ts[i + 1..];
    assert ts[i..] == [ts[i]] + rest;
    ConcatAppend([ts[i]], rest);
    assert [ts[i]][..0] == [];
  }

  /** When sizes agree, the summed sizes are the length of the whole body. */
  lemma {:induction false} SumSizesIsLength(parts: seq<Part>)
    requires SizesAgree(parts)
    ensures SumSizes(parts) == |Concat(Texts(parts))|
  {
    if parts != [] {
      var front := parts[..|parts| - 1];
      assert SizesAgree(front) by {
        forall i | 0 <= i < |front| && front[i].StreamPart? ensures front[i].size == |front[i].stream.content| {
          assert front[i] == parts[i];
        }
      }
      SumSizesIsLength(front);
      assert Texts(parts)[..|parts| - 1] == Texts(front);
      assert PartSize(parts[|parts| - 1]) == |PartText(parts[|parts| - 1])|;
    }
  }

  // ---------------------------------------------------------------------------
  // MultipartStream
  // ---------------------------------------------------------------------------

  /** `MultipartStream`: the parts and the read cursor over them. */
  class MultipartStream {
    const parts: seq<Part>
    var partNo: nat
    var partOffset: nat

    /** `MultipartStream.new(parts)`. */
    constructor(ps: seq<Part>)
      ensures parts == ps && partNo == 0 && partOffset == 0
    {
      parts := ps;
      partNo := 0;
      partOffset := 0;
    }

    /** The streams the parts hold. */
    function Streams(): set<FileStream>
    {
      StreamsOf(parts)
    }

    /** The cursor invariant: the cursor lies inside the current part (or just past the
        last one); every stream before the cursor has been read to its end, the current
        one up to the cursor and every later one not at all; stream sizes are file
        lengths, and no stream is shared. */
    ghost predicate Valid()
      reads this, Streams()
    {
      && partNo <= |parts|
      && (partNo < |parts| ==> partOffset <= PartSize(parts[partNo]))
      && (partNo == |parts| ==> partOffset == 0)
      && SizesAgree(parts)
      && (forall i :: 0 <= i < |parts| && parts[i].StreamPart? ==> parts[i].stream.pos == ReadSoFar(i))
      && (forall i, j :: 0 <= i < j < |parts| && parts[i].StreamPart? && parts[j].StreamPart? ==>
            parts[i].stream != parts[j].stream)
    }

    /** How much of part `i` the reads so far have taken. */
    function ReadSoFar(i: nat): nat
      reads this
      requires i < |parts|
    {
      if i < partNo then PartSize(parts[i]) else if i == partNo then partOffset else 0
    }

    /** The whole body. */
    function Body(): string
    {
      Concat(Texts(parts))
    }

    /** What is left to read when the cursor stands at character `off` of part `no`. */
    ghost function Rest(no: nat, off: nat): string
    {
      RemainingOf(Texts(parts), no, off)
    }

    /** A cursor at the start of parts whose streams are unread, distinct and of the
        sizes given keeps the invariant. */
    lemma ValidAtStart()
      requires partNo == 0 && partOffset == 0 && SizesAgree(parts)
      requires forall i :: 0 <= i < |parts| && parts[i].StreamPart? ==> parts[i].stream.pos == 0
      requires forall i, j :: 0 <= i < j < |parts| && parts[i].StreamPart? && parts[j].StreamPart? ==>
        parts[i].stream != parts[j].stream
      ensures Valid()
    {
    }

    /** A fresh cursor has the whole body still to read. */
    lemma RemainingAtStart()
      requires partNo == 0 && partOffset == 0 && SizesAgree(parts)
      ensures Rest(partNo, partOffset) == Body()
    {
      if parts != [] {
        ConcatFrom(Texts(parts), 0);
        assert Texts(parts)[0..] == Texts(parts);
      }
    }

    /** `size`: the sum of the part sizes, which is the length of the body. */
    method Size() returns (total: int)
      ensures total == SumSizes(parts)
      ensures SizesAgree(parts) ==> total == |Body()|
    {
      total := 0;
      for i := 0 to |parts|
        invariant total == SumSizes(parts[..i])
      {
        assert parts[..i + 1][..i] == parts[..i];
        total := total + PartSize(parts[i]);
      }
      assert parts[..|parts|] == parts;
      if SizesAgree(parts) {
        SumSizesIsLength(parts);
      }
    }

    /** How the HTTP client sends the body stream: `read` of `chunk` characters at a
        time until it answers nil. What it sends is the whole body, in order, with
        nothing skipped or repeated. */
    method Drain(chunk: nat) returns (sent: string)
      requires Valid() && partNo == 0 && partOffset == 0 && chunk > 0
      modifies this`partNo, this`partOffset, Streams()`pos
      ensures Valid() && partNo == |parts|
      ensures sent == Body()
    {
      RemainingAtStart();
      ghost var body := Body();
      sent := "";
      var done := false;
      while !done
        invariant Valid() && sent + Rest(partNo, partOffset) == body
        invariant done ==> partNo == |parts|
        decreases !done, |Rest(partNo, partOffset)|, |parts| - partNo
      {
        sent, done := SendChunk(sent, chunk, body);
      }
    }

    /** One `read(chunk)` of the body by the HTTP client, appended to what was sent
        so far: at the end (nil) nothing is added; otherwise what was sent plus what is
        left is still the body, and less is left or the cursor moved to a later part. */
    method SendChunk(sent: string, chunk: nat, ghost body: string) returns (sent': string, done: bool)
      requires Valid() && chunk > 0 && sent + Rest(partNo, partOffset) == body
      modifies this`partNo, this`partOffset, Streams()`pos
      ensures Valid() && sent' + Rest(partNo, partOffset) == body
      ensures done ==> partNo == |parts|
      ensures !done ==> (|Rest(partNo, partOffset)| < |old(Rest(partNo, partOffset))|)
                        || (|Rest(partNo, partOffset)| == |old(Rest(partNo, partOffset))| && partNo > old(partNo))
    {
      ghost var no, off := partNo, partOffset;
      ghost var rest := Rest(no, off);
      var piece := Read(chunk);
      ReadSpecProgress(Texts(parts), no, off, chunk);
      if piece.None? {
        return sent, true;
      }
      ghost var stays := Rest(partNo, partOffset);
      assert (sent + piece.value) + stays == sent + rest;
      sent', done := sent + piece.value, false;
    }

    /** The state right after the current part gave `k` characters: as `Valid`, but
        the current part's stream (if any) stands `k` characters past the cursor. */
    ghost predicate ReadAhead(k: nat)
      reads this, Streams()
    {
      && partNo < |parts| && partOffset + k <= PartSize(parts[partNo])
      && SizesAgree(parts)
      && (forall i :: 0 <= i < |parts| && i != partNo && parts[i].StreamPart? ==> parts[i].stream.pos == ReadSoFar(i))
      && (parts[partNo].StreamPart? ==> parts[partNo].stream.pos == partOffset + k)
      && (forall i, j :: 0 <= i < j < |parts| && parts[i].StreamPart? && parts[j].StreamPart? ==>
            parts[i].stream != parts[j].stream)
    }

    /** `@parts[@part_no].read(@part_offset, k)`: the next `k` characters of the current
        part. Only the current part's stream moves. */
    method ReadCurrentPart(k: nat) returns (s: Option<string>)
      requires Valid() && partNo < |parts| && partOffset + k <= PartSize(parts[partNo])
      modifies Streams()`pos
      ensures s == Some(Texts(parts)[partNo][partOffset..partOffset + k])
      ensures ReadAhead(k)
    {
      if parts[partNo].StreamPart? {
        assert parts[partNo].stream in Streams();
      }
      s := ReadPart(parts[partNo], partOffset, k);
    }

    /** `@part_offset += k`, once the current part gave `k` characters. */
    method Advance(k: nat)
      requires ReadAhead(k)
      modifies this`partOffset
      ensures Valid() && partOffset == old(partOffset) + k
    {
      partOffset := partOffset + k;
    }

    /** `@part_no += 1; @part_offset = 0`, once the current part gave all it had. */
    method NextPart(k: nat)
      requires ReadAhead(k) && partOffset + k == PartSize(parts[partNo])
      modifies this`partNo, this`partOffset
      ensures Valid() && partNo == old(partNo) + 1 && partOffset == 0
    {
      partNo := partNo + 1;
      partOffset := 0;
    }

    /** `read(how_much)`: nil once the cursor is past the last part; otherwise the next
        `how_much` characters, or all that is left when fewer remain, moving on to the
        following parts as needed. Asking for more than is left moves the cursor past
        the last part, so the next read answers nil. */
    method Read(howMuch: nat) returns (r: Option<string>)
      requires Valid()
      modifies this`partNo, this`partOffset, Streams()`pos
      ensures Valid()
      ensures var s := ReadSpec(Texts(parts), old(partNo), old(partOffset), howMuch);
        r == s.got && partNo == s.no && partOffset == s.off
      ensures r.None? <==> old(partNo) >= |parts|
      decreases |parts| - partNo, 2
    {
      if partNo >= |parts| {
        return None;
      }
      r := ReadFrom(howMuch);
    }

    /** The body of `read` once the cursor is inside a part: what the current part has,
        up to `how_much` characters, then (when more is wanted) a `read` of the rest
        from the start of the next part. */
    method ReadFrom(howMuch: nat) returns (r: Option<string>)
      requires Valid() && partNo < |parts|
      modifies this`partNo, this`partOffset, Streams()`pos
      ensures Valid()
      ensures var s := ReadSpec(Texts(parts), old(partNo), old(partOffset), howMuch);
        r == s.got && partNo == s.no && partOffset == s.off
      ensures r.Some?
      decreases |parts| - partNo, 1
    {
      var howMuchCurrentPart := PartSize(parts[partNo]) - partOffset;
      howMuchCurrentPart := if howMuchCurrentPart > howMuch then howMuch else howMuchCurrentPart;
      var howMuchNextPart := howMuch - howMuchCurrentPart;
      var currentPart := ReadCurrentPart(howMuchCurrentPart);
      if howMuchNextPart > 0 {
        var joined := ReadAcross(currentPart.value, howMuch, howMuchCurrentPart, howMuchNextPart);
        r := Some(joined);
      } else {
        ReadWithin(howMuchCurrentPart);
        r := currentPart;
      }
    }

    /** The end of a read that the current part satisfies: `@part_offset` moves on by
        what was read. */
    method ReadWithin(k: nat)
      requires ReadAhead(k)
      modifies this`partOffset
      ensures Valid()
      ensures var s := ReadSpec(Texts(parts), partNo, old(partOffset), k);
        s == Step(Some(Texts(parts)[partNo][old(partOffset)..old(partOffset) + k]), partNo, partOffset)
    {
      ghost var ts := Texts(parts);
      assert |ts[partNo]| == PartSize(parts[partNo]);
      Advance(k);
    }

    /** The end of a read of `howMuch` that wants `next` more than the `k` characters
        `got` from the current part: the cursor moves to the start of the next part and
        the rest is read from there. */
    method ReadAcross(got: string, ghost howMuch: nat, k: nat, next: nat) returns (r: string)
      requires ReadAhead(k) && partOffset + k == PartSize(parts[partNo])
      requires next > 0 && howMuch == k + next
      requires got == Texts(parts)[partNo][partOffset..partOffset + k]
      modifies this`partNo, this`partOffset, Streams()`pos
      ensures Valid()
      ensures var s := ReadSpec(Texts(parts), old(partNo), old(partOffset), howMuch);
        Some(r) == s.got && partNo == s.no && partOffset == s.off
      decreases |parts| - partNo, 0
    {
      ghost var ts, no, off := Texts(parts), partNo, partOffset;
      assert |ts[no]| == PartSize(parts[no]);
      ghost var later := ReadSpec(ts, no + 1, 0, next);
      ReadSpecAcross(ts, no, off, howMuch, k, next);
      assert ReadSpec(ts, no, off, howMuch)
        == Step(Some(got + if later.got.Some? then later.got.value else ""), later.no, later.off);
      NextPart(k);
      r := ReadOn(got, next);
      assert r == got + (if later.got.Some? then later.got.value else "") && partNo == later.no && partOffset == later.off;
    }

    /** The end of a read that crosses into the next part: `read` of the characters
        still wanted, appended to `got` (nothing is appended when that read is nil). */
    method ReadOn(got: string, k: nat) returns (r: string)
      requires Valid()
      modifies this`partNo, this`partOffset, Streams()`pos
      ensures Valid()
      ensures var s := ReadSpec(Texts(parts), old(partNo), old(partOffset), k);
        r == got + (if s.got.Some? then s.got.value else "") && partNo == s.no && partOffset == s.off
      decreases |parts| - partNo, 3
    {
      var nextPart := Read(k);
      r := got + if nextPart.Some? then nextPart.value else "";
    }
  }

  /** What a read returns (nil past the last text) and where it leaves the cursor. */
  datatype Step = Step(got: Option<string>, no: nat, off: nat)

  /** The reference reading of `k` characters over the texts `ts` from character `off`
      of text `no`: what fits in the current text, else all of it and then the rest of
      the request from the start of the next text. */
  ghost function ReadSpec(ts: seq<string>, no: nat, off: nat, k: nat): Step
    requires no < |ts| ==> off <= |ts[no]|
    decreases |ts| - no
  {
    if no >= |ts| then Step(None, no, off)
    else if k <= |ts[no]| - off then Step(Some(ts[no][off..off + k]), no, off + k)
    else
      var s := ReadSpec(ts, no + 1, 0, k - (|ts[no]| - off));
      Step(Some(ts[no][off..] + if s.got.Some? then s.got.value else ""), s.no, s.off)
  }

  /** A read of `k` characters that wants `next` more than the `here` characters left
      in the current text takes those and then reads `next` on from the start of the
      next text. */
  lemma ReadSpecAcross(ts: seq<string>, no: nat, off: nat, k: nat, here: nat, next: nat)
    requires no < |ts| && off + here == |ts[no]| && next > 0 && k == here + next
    ensures var later := ReadSpec(ts, no + 1, 0, next);
      ReadSpec(ts, no, off, k)
        == Step(Some(ts[no][off..off + here] + if later.got.Some? then later.got.value else ""), later.no, later.off)
  {
    assert ts[no][off..off + here] == ts[no][off..];
  }

  /** What is left of the texts `ts` from character `off` of text `no` on: the rest
      of that text, then every later one (nothing past the last text). */
  ghost function RemainingOf(ts: seq<string>, no: nat, off: nat): string
  {
    if no >= |ts| then [] else ts[no][Min(off, |ts[no]|)..] + Concat(ts[no + 1..])
  }

  /** The rest of text `no`, then what is left from the start of the next text. */
  lemma RemainingFrom(ts: seq<string>, no: nat, off: nat)
    requires no < |ts| && off <= |ts[no]|
    ensures RemainingOf(ts, no, off) == ts[no][off..] + RemainingOf(ts, no + 1, 0)
  {
    if no + 1 < |ts| {
      ConcatFrom(ts, no + 1);
    }
  }

  /** A read answers nil exactly past the last text, and otherwise leaves the cursor
      further on and inside a text, or just past the last one. */
  lemma {:induction false} ReadSpecCursor(ts: seq<string>, no: nat, off: nat, k: nat)
    requires no < |ts| ==> off <= |ts[no]|
    ensures var s := ReadSpec(ts, no, off, k);
      && (s.got.None? <==> no >= |ts|)
      && (s.got.None? ==> s.no == no && s.off == off)
      && no <= s.no
      && (s.no < |ts| ==> s.off <= |ts[s.no]|)
      && (s.no >= |ts| && no < |ts| ==> s.no == |ts| && s.off == 0)
    decreases |ts| - no
  {
    if no < |ts| && k > |ts[no]| - off {
      ReadSpecCursor(ts, no + 1, 0, k - (|ts[no]| - off));
    }
  }

  /** A read returns exactly the first `k` characters still to read, or all of them when
      fewer remain, and what is left afterwards is what followed them. */
  lemma {:induction false} ReadSpecTakes(ts: seq<string>, no: nat, off: nat, k: nat)
    requires no < |ts| ==> off <= |ts[no]|
    ensures var s := ReadSpec(ts, no, off, k);
      var rest := RemainingOf(ts, no, off);
      s.got.Some? ==> s.got.value == rest[..Min(k, |rest|)] && RemainingOf(ts, s.no, s.off) == rest[|s.got.value|..]
    decreases |ts| - no, 1
  {
    if no < |ts| {
      if k <= |ts[no]| - off {
        ReadSpecTakesHere(ts, no, off, k);
      } else {
        ReadSpecTakesLater(ts, no, off, k);
      }
    }
  }

  /** `ReadSpecTakes` for a read that stays inside the current text. */
  lemma ReadSpecTakesHere(ts: seq<string>, no: nat, off: nat, k: nat)
    requires no < |ts| && off <= |ts[no]| && k <= |ts[no]| - off
    ensures var rest := RemainingOf(ts, no, off);
      && ReadSpec(ts, no, off, k) == Step(Some(rest[..k]), no, off + k)
      && RemainingOf(ts, no, off + k) == rest[k..]
  {
    RemainingFrom(ts, no, off);
    RemainingFrom(ts, no, off + k);
    var here, later := ts[no][off..], RemainingOf(ts, no + 1, 0);
    assert (here + later)[..k] == ts[no][off..off + k];
    assert (here + later)[k..] == ts[no][off + k..] + later;
  }

  /** `ReadSpecTakes` for a read that runs on into the next text. */
  lemma {:induction false} ReadSpecTakesLater(ts: seq<string>, no: nat, off: nat, k: nat)
    requires no < |ts| && off <= |ts[no]| && k > |ts[no]| - off
    ensures var s := ReadSpec(ts, no, off, k);
      var rest := RemainingOf(ts, no, off);
      s.got.Some? && s.got.value == rest[..Min(k, |rest|)] && RemainingOf(ts, s.no, s.off) == rest[|s.got.value|..]
    decreases |ts| - no, 0
  {
    RemainingFrom(ts, no, off);
    var here, later := ts[no][off..], RemainingOf(ts, no + 1, 0);
    var k2 := k - (|ts[no]| - off);
    ReadSpecTakes(ts, no + 1, 0, k2);
    ReadSpecCursor(ts, no + 1, 0, k2);
    var s := ReadSpec(ts, no + 1, 0, k2);
    var next := if s.got.Some? then s.got.value else "";
    assert next == later[..Min(k2, |later|)];
    assert (here + later)[..|here| + |next|] == here + next;
    assert (here + later)[|here| + |next|..] == later[|next|..];
  }

  /** A read of at least one character splits what is left into what it returns and
      what stays, and makes progress: less is left, or the cursor ran past the last text. */
  lemma ReadSpecProgress(ts: seq<string>, no: nat, off: nat, k: nat)
    requires no < |ts| ==> off <= |ts[no]|
    requires k > 0
    ensures var s := ReadSpec(ts, no, off, k);
      s.got.Some? ==> && RemainingOf(ts, no, off) == s.got.value + RemainingOf(ts, s.no, s.off)
                      && (|RemainingOf(ts, s.no, s.off)| < |RemainingOf(ts, no, off)| || s.no > no)
  {
    var s := ReadSpec(ts, no, off, k);
    var rest := RemainingOf(ts, no, off);
    ReadSpecCursor(ts, no, off, k);
    if s.got.Some? {
      ReadSpecTakes(ts, no, off, k);
      var m := Min(k, |rest|);
      assert rest == rest[..m] + rest[m..];
      if rest == [] {
        ReadSpecRunsOut(ts, no, off, k);
      }
    }
  }

  /** The cursor runs past the last text exactly when more was asked for than was
      left (or it was already there). */
  lemma {:induction false} ReadSpecRunsOut(ts: seq<string>, no: nat, off: nat, k: nat)
    requires no < |ts| ==> off <= |ts[no]|
    ensures ReadSpec(ts, no, off, k).no >= |ts| <==> no >= |ts| || k > |RemainingOf(ts, no, off)|
    decreases |ts| - no
  {
    if no < |ts| {
      RemainingFrom(ts, no, off);
      if k > |ts[no]| - off {
        ReadSpecRunsOut(ts, no + 1, 0, k - (|ts[no]| - off));
      }
    }
  }

  // ---------------------------------------------------------------------------
  // Multipart#post
  // ---------------------------------------------------------------------------

  /** One `param_name => filepath` entry of the files to upload, with the bytes the
      file at that path holds (the file system is not part of this model). */
  datatype FileParam = FileParam(paramName: string, filepath: string, bytes: string)

  /** The boundary for the draw `nonce` of `rand(1000000)`. */
  function Boundary(nonce: nat): string
  {
    "----RubyMultipartClient" + NatToS(nonce) + "ZZZZZ"
  }

  /** The header part in front of a file; the file name is what follows the last
      backslash of the path (`split("\").last`). */
  function Header(boundary: string, paramName: string, filepath: string, contentType: string): string
    requires HasOtherThan(filepath, '\\')
  {
    "--" + boundary + "\r\n"
    + "Content-Disposition: form-data; name=\"" + paramName + "\"; filename=\"" + SplitLast(filepath, '\\') + "\"\r\n"
    + "Content-Type: " + contentType + "\r\n\r\n"
  }

  /** The part that ends the body. */
  function Closing(boundary: string): string
  {
    "\r\n--" + boundary + "--\r\n"
  }

  /** The header names only the file, not its directory: a Windows path and its bare
      file name give the same header. */
  lemma HeaderNamesFile(boundary: string, paramName: string, dir: string, name: string, contentType: string)
    requires name != [] && '\\' !in name
    ensures HasOtherThan(name, '\\') && SplitLast(name, '\\') == name
    ensures HasOtherThan(dir + ['\\'] + name, '\\')
    ensures Header(boundary, paramName, dir + ['\\'] + name, contentType) == Header(boundary, paramName, name, contentType)
  {
    SplitLastOf(dir, '\\', name);
    assert name[|name| - 1] in name;
  }

  /** The header of every file, in order. */
  function Headers(fileNames: seq<FileParam>, contentType: string, boundary: string): (headers: seq<string>)
    requires forall i :: 0 <= i < |fileNames| ==> HasOtherThan(fileNames[i].filepath, '\\')
    ensures |headers| == |fileNames|
  {
    seq(|fileNames|, i requires 0 <= i < |fileNames| => Header(boundary, fileNames[i].paramName, fileNames[i].filepath, contentType))
  }

  /** The parts `post` lays out in front of the closing part for the first
      `|streams|` files: for each file, its header and then the part over its stream,
      of the file's size. */
  function FileLayout(headers: seq<string>, fileNames: seq<FileParam>, streams: seq<FileStream>): (parts: seq<Part>)
    requires |headers| == |fileNames| && |streams| <= |fileNames|
    ensures |parts| == 2 * |streams|
  {
    if streams == [] then []
    else
      var n := |streams| - 1;
      FileLayout(headers, fileNames, streams[..n]) + FileEntry(headers[n], fileNames[n], streams[n])
  }

  /** What one file contributes to the layout: its header, then the part over its
      stream, of the file's size. */
  function FileEntry(header: string, file: FileParam, stream: FileStream): (entry: seq<Part>)
    ensures |entry| == 2
  {
    [StringPart(header), StreamPart(stream, |file.bytes|)]
  }

  /** File `k` contributes its header at position 2k and its stream part at 2k+1. */
  lemma {:induction false} FileLayoutAt(headers: seq<string>, fileNames: seq<FileParam>, streams: seq<FileStream>, k: nat)
    requires |headers| == |fileNames| && |streams| <= |fileNames| && k < |streams|
    ensures var parts := FileLayout(headers, fileNames, streams);
      parts[2 * k] == StringPart(headers[k]) && parts[2 * k + 1] == StreamPart(streams[k], |fileNames[k].bytes|)
    decreases |streams|
  {
    var n := |streams| - 1;
    var front := FileLayout(headers, fileNames, streams[..n]);
    var parts := front + FileEntry(headers[n], fileNames[n], streams[n]);
    assert FileLayout(headers, fileNames, streams) == parts;
    if k < n {
      FileLayoutAt(headers, fileNames, streams[..n], k);
      assert parts[2 * k] == front[2 * k] && parts[2 * k + 1] == front[2 * k + 1];
    }
  }

  /** Each file contributes its header at an even position and its stream part right
      after it. */
  lemma FileLayoutParts(fileNames: seq<FileParam>, streams: seq<FileStream>, contentType: string, boundary: string)
    requires |streams| == |fileNames|
    requires forall i :: 0 <= i < |fileNames| ==> HasOtherThan(fileNames[i].filepath, '\\')
    ensures var parts := FileLayout(Headers(fileNames, contentType, boundary), fileNames, streams);
      forall k :: 0 <= k < |fileNames| ==>
        && parts[2 * k] == StringPart(Header(boundary, fileNames[k].paramName, fileNames[k].filepath, contentType))
        && parts[2 * k + 1] == StreamPart(streams[k], |fileNames[k].bytes|)
  {
    var headers := Headers(fileNames, contentType, boundary);
    var parts := FileLayout(headers, fileNames, streams);
    forall k | 0 <= k < |fileNames|
      ensures parts[2 * k] == StringPart(Header(boundary, fileNames[k].paramName, fileNames[k].filepath, contentType))
      ensures parts[2 * k + 1] == StreamPart(streams[k], |fileNames[k].bytes|)
    {
      FileLayoutAt(headers, fileNames, streams, k);
    }
  }

  /** The stream parts of the layout read the given streams, each with its file's
      size, and no two of them share a stream when the streams are distinct. */
  lemma {:induction false} FileLayoutStreams(headers: seq<string>, fileNames: seq<FileParam>, streams: seq<FileStream>)
    requires |headers| == |fileNames| && |streams| <= |fileNames|
    requires forall k :: 0 <= k < |streams| ==> streams[k].content == fileNames[k].bytes
    requires forall i, j :: 0 <= i < j < |streams| ==> streams[i] != streams[j]
    ensures var parts := FileLayout(headers, fileNames, streams);
      && SizesAgree(parts)
      && (forall i :: 0 <= i < |parts| && parts[i].StreamPart? ==> parts[i].stream in streams)
      && (forall i, j :: 0 <= i < j < |parts| && parts[i].StreamPart? && parts[j].StreamPart? ==>
            parts[i].stream != parts[j].stream)
  {
    if streams != [] {
      var n := |streams| - 1;
      var fronts := streams[..n];
      FileLayoutStreams(headers, fileNames, fronts);
      var front := FileLayout(headers, fileNames, fronts);
      var parts := FileLayout(headers, fileNames, streams);
      assert parts == front + [parts[2 * n], parts[2 * n + 1]];
      assert streams[n] !in fronts by {
        forall k | 0 <= k < n ensures fronts[k] != streams[n] {
          assert fronts[k] == streams[k];
        }
      }
      forall i | 0 <= i < |parts| && parts[i].StreamPart? ensures parts[i].stream in streams {
        if i < 2 * n {
          assert parts[i] == front[i];
          var k :| 0 <= k < n && fronts[k] == parts[i].stream;
          assert streams[k] == fronts[k];
        } else {
          assert parts[i].stream == streams[n];
        }
      }
    }
  }

  /** `post(to_url, content_type, user, password)` up to the point where the request
      is sent: a header part and a stream part for each file, in order, then the closing
      part; `content_length` is the size of the stream and the content type carries the
      boundary. `nonce` is the `rand(1000000)` draw. The HTTP exchange is modelled by
      `Drain`, after which every file is closed; `requestRaises` says the connection or
      the request raised, and then nothing is sent and, with no `ensure` around the
      close loop, every file is left open. */
  method Post(fileNames: seq<FileParam>, contentType: string, nonce: nat, chunk: nat, requestRaises: bool)
    returns (body: MultipartStream, streams: seq<FileStream>, contentLength: int, requestType: string, sent: string)
    requires nonce < 1000000 && chunk > 0
    requires forall i :: 0 <= i < |fileNames| ==> HasOtherThan(fileNames[i].filepath, '\\')
    ensures |streams| == |fileNames|
    ensures fresh(body)
    ensures body.parts == FileLayout(Headers(fileNames, contentType, Boundary(nonce)), fileNames, streams)
                          + [StringPart(Closing(Boundary(nonce)))]
    ensures forall k :: 0 <= k < |streams| ==>
      && fresh(streams[k]) && streams[k].content == fileNames[k].bytes
      && (streams[k].closed <==> !requestRaises)
    ensures requestType == "multipart/form-data; boundary=" + Boundary(nonce)
    ensures contentLength == |body.Body()|
    ensures sent == if requestRaises then "" else body.Body()
  {
    var boundary := Boundary(nonce);
    body, streams, contentLength, requestType, sent := PostWithBoundary(fileNames, contentType, boundary, chunk, requestRaises);
  }

  /** `post` once the boundary is drawn. */
  method PostWithBoundary(fileNames: seq<FileParam>, contentType: string, boundary: string, chunk: nat,
                          requestRaises: bool)
    returns (body: MultipartStream, streams: seq<FileStream>, contentLength: int, requestType: string, sent: string)
    requires chunk > 0
    requires forall i :: 0 <= i < |fileNames| ==> HasOtherThan(fileNames[i].filepath, '\\')
    ensures |streams| == |fileNames|
    ensures fresh(body)
    ensures body.parts == FileLayout(Headers(fileNames, contentType, boundary), fileNames, streams)
                          + [StringPart(Closing(boundary))]
    ensures forall k :: 0 <= k < |streams| ==>
      && fresh(streams[k]) && streams[k].content == fileNames[k].bytes
      && (streams[k].closed <==> !requestRaises)
    ensures requestType == "multipart/form-data; boundary=" + boundary
    ensures contentLength == |body.Body()|
    ensures sent == if requestRaises then "" else body.Body()
  {
    body, streams := Assemble(fileNames, contentType, boundary);
    contentLength := body.Size();
    requestType := "multipart/form-data; boundary=" + boundary;
    if requestRaises {
      sent := "";
    } else {
      sent := body.Drain(chunk);
      CloseAll(streams);
    }
  }

  /** `streams.each { |stream| stream.close }`. */
  method CloseAll(streams: seq<FileStream>)
    modifies set k | 0 <= k < |streams| :: streams[k]`closed
    ensures forall k :: 0 <= k < |streams| ==> streams[k].closed
  {
    for k := 0 to |streams|
      invariant forall j :: 0 <= j < k ==> streams[j].closed
    {
      streams[k].Close();
    }
  }

  /** The parts of `post` up to `MultipartStream.new(parts)`: the file parts, the
      closing part, and a stream whose cursor stands at the start of the body. */
  method Assemble(fileNames: seq<FileParam>, contentType: string, boundary: string)
    returns (body: MultipartStream, streams: seq<FileStream>)
    requires forall i :: 0 <= i < |fileNames| ==> HasOtherThan(fileNames[i].filepath, '\\')
    ensures |streams| == |fileNames|
    ensures fresh(body)
    ensures body.parts == FileLayout(Headers(fileNames, contentType, boundary), fileNames, streams) + [StringPart(Closing(boundary))]
    ensures forall k :: 0 <= k < |streams| ==> fresh(streams[k]) && streams[k].content == fileNames[k].bytes && !streams[k].closed
    ensures fresh(body.Streams())
    ensures body.Valid() && body.partNo == 0 && body.partOffset == 0
  {
    var parts;
    var headers := Headers(fileNames, contentType, boundary);
    parts, streams := FileParts(headers, fileNames);
    parts := parts + [StringPart(Closing(boundary))];
    ClosedLayout(headers, fileNames, streams, Closing(boundary));
    body := new MultipartStream(parts);
    body.ValidAtStart();
  }

  /** The layout with the closing part after it: stream sizes are file lengths, each
      stream part reads one of the streams, and no two share one. */
  lemma ClosedLayout(headers: seq<string>, fileNames: seq<FileParam>, streams: seq<FileStream>, closing: string)
    requires |headers| == |fileNames| && |streams| == |fileNames|
    requires forall k :: 0 <= k < |streams| ==> streams[k].content == fileNames[k].bytes
    requires forall i, j :: 0 <= i < j < |streams| ==> streams[i] != streams[j]
    ensures var parts := FileLayout(headers, fileNames, streams) + [StringPart(closing)];
      && SizesAgree(parts)
      && (forall i :: 0 <= i < |parts| && parts[i].StreamPart? ==> parts[i].stream in streams)
      && (forall i, j :: 0 <= i < j < |parts| && parts[i].StreamPart? && parts[j].StreamPart? ==>
            parts[i].stream != parts[j].stream)
  {
    var front := FileLayout(headers, fileNames, streams);
    var parts := front + [StringPart(closing)];
    FileLayoutStreams(headers, fileNames, streams);
    assert forall i :: 0 <= i < |front| ==> parts[i] == front[i];
  }

  /** The `@file_names.each` loop of `post`: a header part and then a part over the
      freshly opened file, for each file in turn. The headers, which depend on nothing
      the loop changes, come in computed. */
  method FileParts(headers: seq<string>, fileNames: seq<FileParam>)
    returns (parts: seq<Part>, streams: seq<FileStream>)
    requires |headers| == |fileNames|
    ensures |streams| == |fileNames| && parts == FileLayout(headers, fileNames, streams)
    ensures forall k :: 0 <= k < |streams| ==> fresh(streams[k]) && streams[k].content == fileNames[k].bytes
    ensures Unread(streams)
  {
    parts := [];
    streams := [];
    for k := 0 to |fileNames|
      invariant |streams| == k && parts == FileLayout(headers, fileNames, streams)
      invariant forall j :: 0 <= j < k ==>
        fresh(streams[j]) && streams[j].content == fileNames[j].bytes && streams[j].pos == 0 && !streams[j].closed
      invariant forall j :: 0 <= j < k ==> streams[j] !in streams[..j]
    {
      ghost var before := streams;
      var stream;
      parts, stream := AddFile(parts, headers[k], fileNames[k]);
      streams := streams + [stream];
      FileLayoutSnoc(headers, fileNames, before, stream);
      assert forall j :: 0 <= j < k ==> streams[j] == before[j] && streams[..j] == before[..j];
    }
    NoRepeats(streams);
  }

  /** A list none of whose elements occurs before it holds no element twice. */
  lemma NoRepeats(streams: seq<FileStream>)
    requires forall j :: 0 <= j < |streams| ==> streams[j] !in streams[..j]
    ensures forall i, j :: 0 <= i < j < |streams| ==> streams[i] != streams[j]
  {
    forall i, j | 0 <= i < j < |streams| ensures streams[i] != streams[j] {
      assert streams[..j][i] == streams[i];
    }
  }

  /** One pass of the `@file_names.each` loop: the file's header part, then the file
      opened and a part over its stream, of the file's size. */
  method AddFile(parts: seq<Part>, header: string, fileParam: FileParam)
    returns (parts': seq<Part>, stream: FileStream)
    ensures fresh(stream) && stream.content == fileParam.bytes && stream.pos == 0 && !stream.closed
    ensures parts' == parts + FileEntry(header, fileParam, stream)
  {
    parts' := parts + [StringPart(header)];
    stream := new FileStream.Open(fileParam.bytes);
    parts' := parts' + [StreamPart(stream, |fileParam.bytes|)];
  }

  /** Laying out one more file appends that file's entry. */
  lemma FileLayoutSnoc(headers: seq<string>, fileNames: seq<FileParam>, streams: seq<FileStream>, stream: FileStream)
    requires |headers| == |fileNames| && |streams| < |fileNames|
    ensures FileLayout(headers, fileNames, streams + [stream])
         == FileLayout(headers, fileNames, streams) + FileEntry(headers[|streams|], fileNames[|streams|], stream)
  {
    assert (streams + [stream])[..|streams|] == streams;
  }

  /** Freshly opened, distinct files that nothing has read from or closed yet. */
  ghost predicate Unread(streams: seq<FileStream>)
    reads set j | 0 <= j < |streams| :: streams[j]
  {
    && (forall j :: 0 <= j < |streams| ==> streams[j].pos == 0 && !streams[j].closed)
    && (forall i, j :: 0 <= i < j < |streams| ==> streams[i] != streams[j])
  }
}
