/**
 The event-stream frame scanner (agentboard/remote.go, `remoteBoardFrameScanner`): it
 validates UTF-8 byte by byte and bounds the bytes of a frame. A frame ends at a blank
 line; lines end in LF, CR or CRLF (section 9.2.5 of the HTML Living Standard).
 The scanner is proved against a description of the whole byte history.
 */
module FrameScanner {
  import opened Common
  import opened Utf8

  const LF: Byte := 0x0A
  const CR: Byte := 0x0D
  const MAX_FRAME_BYTES: nat := 512 * 1024

  // Lines and frames of a byte sequence

  /** A line ends just before position `i`. A bare CR shows only with the byte after it. */
  predicate LineEnd(s: seq<Byte>, i: nat) {
    0 < i <= |s| && (s[i - 1] == LF || (s[i - 1] == CR && i < |s| && s[i] != LF))
  }

  predicate LineStart(s: seq<Byte>, i: nat) {
    i == 0 || LineEnd(s, i)
  }

  /** An empty line ends just before position `i`. */
  predicate BlankLineEnd(s: seq<Byte>, i: nat) {
    && LineEnd(s, i)
    && (LineStart(s, i - 1) || (i >= 2 && s[i - 2..i] == [CR, LF] && LineStart(s, i - 2)))
  }

  /** A frame starts at position `i`. */
  predicate FrameStart(s: seq<Byte>, i: nat) {
    i == 0 || BlankLineEnd(s, i)
  }

  /** The last frame start at or before position `i`. */
  function LastFrameStart(s: seq<Byte>, i: nat): (start: nat)
    requires i <= |s|
    ensures start <= i && FrameStart(s, start)
    ensures forall k :: start < k <= i ==> !FrameStart(s, k)
  {
    if FrameStart(s, i) then i else LastFrameStart(s, i - 1)
  }

  /** Bytes since the last completed blank line. */
  function OpenFrameBytes(s: seq<Byte>): nat {
    |s| - LastFrameStart(s, |s|)
  }

  /** Bytes of the frame that the last byte belongs to, up to and including it. */
  function FrameBytes(s: seq<Byte>): nat
    requires s != []
  {
    |s| - LastFrameStart(s, |s| - 1)
  }

  /** No frame of the stream, complete or still open, exceeds the bound. */
  ghost predicate FramesBounded(s: seq<Byte>) {
    forall i, j | 0 <= i < j <= |s| && IsFramePart(s, i, j) :: j - i <= MAX_FRAME_BYTES
  }

  /** Positions `i` to `j` lie within one frame, from its start. */
  ghost predicate IsFramePart(s: seq<Byte>, i: nat, j: nat)
  {
    FrameStart(s, i) && forall k :: i < k < j ==> !FrameStart(s, k)
  }

  /** The streams the service accepts so far. */
  ghost predicate Acceptable(s: seq<Byte>) {
    Extendable(s) && FramesBounded(s)
  }

  lemma FrameStartOfPrefix(s: seq<Byte>, k: nat, i: nat)
    requires i < k <= |s|
    ensures FrameStart(s[..k], i) <==> FrameStart(s, i)
  {
  }

  /** Frames are bounded iff the count at every byte is. */
  lemma BoundedIffCounts(s: seq<Byte>)
    ensures FramesBounded(s) <==> forall k :: 0 < k <= |s| ==> FrameBytes(s[..k]) <= 524288
  {
    if FramesBounded(s) {
      forall k | 0 < k <= |s| ensures FrameBytes(s[..k]) <= MAX_FRAME_BYTES {
        var i := LastFrameStart(s[..k], k - 1);
        forall m | i <= m < k ensures FrameStart(s[..k], m) <==> FrameStart(s, m) {
          FrameStartOfPrefix(s, k, m);
        }
        assert IsFramePart(s, i, k);
      }
    }
    if forall k :: 0 < k <= |s| ==> FrameBytes(s[..k]) <= MAX_FRAME_BYTES {
      forall i, j | 0 <= i < j <= |s| && IsFramePart(s, i, j) ensures j - i <= MAX_FRAME_BYTES {
        forall m | i <= m < j ensures FrameStart(s[..j], m) <==> FrameStart(s, m) {
          FrameStartOfPrefix(s, j, m);
        }
        assert LastFrameStart(s[..j], j - 1) == i;
        assert FrameBytes(s[..j]) <= MAX_FRAME_BYTES;
      }
    }
  }

  /** A byte keeps the frames bounded iff the frame it belongs to stays within the bound. */
  lemma BoundedStep(s: seq<Byte>, b: Byte)
    ensures FramesBounded(s + [b]) <==> FramesBounded(s) && FrameBytes(s + [b]) <= MAX_FRAME_BYTES
  {
    var t := s + [b];
    BoundedIffCounts(s);
    BoundedIffCounts(t);
    assert t[..|t|] == t;
    assert forall k :: 0 < k <= |s| ==> t[..k] == s[..k];
  }

  /** Only valid prefixes can be extended. */
  lemma ExtendablePrefix(s: seq<Byte>, b: Byte)
    requires Extendable(s + [b])
    ensures Extendable(s)
  {
    var t :| ValidUtf8(s + [b] + t);
    assert s + [b] + t == s + ([b] + t);
  }

  // What the scanner's flags say about the history

  /** The line being read has no content yet, apart from a CR that may end it. */
  ghost predicate OpenLineEmpty(s: seq<Byte>) {
    LineStart(s, |s|) || (s != [] && s[|s| - 1] == CR && LineStart(s, |s| - 1))
  }

  predicate EndsInCR(s: seq<Byte>) {
    s != [] && s[|s| - 1] == CR
  }

  lemma StartsBefore(s: seq<Byte>, b: Byte)
    ensures forall i: nat | i < |s| :: FrameStart(s + [b], i) <==> FrameStart(s, i)
    ensures forall i: nat | i < |s| :: LineEnd(s + [b], i) <==> LineEnd(s, i)
  {
  }

  /** A bare CR that ends an empty line ends it, and a frame, once the next byte shows it is bare. */
  lemma StartAtEnd(s: seq<Byte>, b: Byte)
    ensures FrameStart(s + [b], |s|) <==> FrameStart(s, |s|) || (EndsInCR(s) && b != LF && OpenLineEmpty(s))
  {
  }

  /** How one more byte changes lines and frames. */
  lemma LineStep(s: seq<Byte>, b: Byte)
    ensures OpenLineEmpty(s + [b]) <==> b == 0x0A || (b == 0x0D && (EndsInCR(s) || OpenLineEmpty(s)))
    ensures FrameStart(s + [b], |s| + 1) <==> b == 0x0A && OpenLineEmpty(s)
    ensures EndsInCR(s + [b]) <==> b == 0x0D
  {
  }

  lemma LastStartStep(s: seq<Byte>, b: Byte)
    ensures LastFrameStart(s + [b], |s|)
      == if EndsInCR(s) && b != LF && OpenLineEmpty(s) then |s| else LastFrameStart(s, |s|)
    ensures LastFrameStart(s + [b], |s| + 1)
      == if b == LF && OpenLineEmpty(s) then |s| + 1 else LastFrameStart(s + [b], |s|)
  {
    hide FrameStart, OpenLineEmpty, EndsInCR;
    LineStep(s, b);
    StartsBefore(s, b);
    StartAtEnd(s, b);
    var old', new' := LastFrameStart(s, |s|), LastFrameStart(s + [b], |s|);
    assert old' < |s| ==> FrameStart(s + [b], old');
    assert new' < |s| ==> FrameStart(s, new');
  }

  datatype ScanError = NotUtf8 | FrameLimit

  class Scanner {
    var frameBytes: nat
    var lineEmpty: bool
    var previousCR: bool
    const utf8: array<Byte>
    var utf8Len: nat
    ghost var history: seq<Byte>  // the bytes accepted so far
    ghost var whole: seq<Byte>    // the bytes before the pending ones

    /**
     The bytes accepted so far are acceptable: all but the pending ones are valid UTF-8,
     the pending ones are a proper prefix of an encoding, and the counters describe the
     open frame and line.
     */
    ghost predicate Valid()
      reads this, utf8
    {
      && utf8.Length == 4 && utf8Len <= 3
      && history == whole + utf8[..utf8Len]
      && ValidUtf8(whole) && Partial(utf8[..utf8Len])
      && FramesBounded(history)
      && frameBytes == OpenFrameBytes(history)
      && (lineEmpty <==> OpenLineEmpty(history))
      && (previousCR <==> EndsInCR(history))
    }

    constructor ()
      ensures Valid() && history == [] && fresh(utf8)
    {
      frameBytes := 0;
      lineEmpty := true;
      previousCR := false;
      utf8 := new Byte[4](_ => 0);
      utf8Len := 0;
      history, whole := [], [];
      new;
      PartialShape([]);
      assert utf8[..0] == [];
    }

    /** The incremental UTF-8 check of `push`. */
    method PushUtf8(value: Byte) returns (ok: bool)
      requires Valid()
      modifies `utf8Len, `whole, utf8
      ensures ok <==> Extendable(history + [value])
      ensures ok ==> utf8Len <= 3 && history + [value] == whole + utf8[..utf8Len]
      ensures ok ==> ValidUtf8(whole) && Partial(utf8[..utf8Len])
    {
      ghost var pending := utf8[..utf8Len];
      NextByte(pending, value);
      ExtendableTail(whole, pending + [value]);
      assert history + [value] == whole + (pending + [value]);
      if value >= 0x80 || utf8Len > 0 {
        if utf8Len >= utf8.Length {
          return false;
        }
        utf8[utf8Len] := value;
        utf8Len := utf8Len + 1;
        var prefix := utf8[..utf8Len];
        assert prefix == pending + [value];
        if LibValid(prefix) {
          utf8Len := 0;
          Complete(whole, prefix);
          whole := whole + prefix;
          assert utf8[..0] == [];
        } else if !LibFullRune(prefix) {
          PartialShape(prefix);
        } else {
          return false;
        }
      } else {
        assert pending + [value] == [value] && IsChar([value]);
        Complete(whole, [value]);
        whole := whole + [value];
        assert utf8[..0] == [];
      }
      return true;
    }

    /**
     One byte. It is accepted iff the stream stays extendable to valid UTF-8 and its
     frame stays within the bound; encoding errors are reported first.
     */
    method Push(value: Byte) returns (frameEnded: bool, error: Option<ScanError>)
      requires Valid()
      modifies this, utf8
      ensures error == None ==> Valid() && history == old(history) + [value]
      ensures error == None <==> Acceptable(old(history) + [value])
      ensures error == Some(NotUtf8) <==> !Extendable(old(history) + [value])
      ensures error == None ==> (frameEnded <==> value == LF && FrameStart(history, |history|))
    {
      hide Extendable, ValidUtf8, Partial, FrameStart, LastFrameStart, FramesBounded, OpenLineEmpty, EndsInCR;
      var ok := PushUtf8(value);
      if !ok {
        return false, Some(NotUtf8);
      }
      LineStep(history, value);
      LastStartStep(history, value);
      BoundedStep(history, value);
      history := history + [value];
      if previousCR && value != LF {
        if lineEmpty {
          frameBytes := 0;
        }
        lineEmpty := true;
      }
      frameBytes := frameBytes + 1;
      if frameBytes > MAX_FRAME_BYTES {
        return false, Some(FrameLimit);
      }
      if value == LF {
        frameEnded := lineEmpty;
        if lineEmpty {
          frameBytes := 0;
        }
        lineEmpty := true;
        previousCR := false;
      } else if value == CR {
        previousCR := true;
        frameEnded := false;
      } else {
        lineEmpty := false;
        previousCR := false;
        frameEnded := false;
      }
      error := None;
    }

    /**
     The scan of one read (one line of the reader): bytes are pushed until one is
     refused. Whatever the reads, the outcome depends on the concatenated stream only:
     the scan stops exactly at the first byte that makes the stream unacceptable.
     */
    method ScanRead(line: seq<Byte>) returns (error: Option<ScanError>, ghost accepted: nat)
      requires Valid()
      modifies this, utf8
      ensures error == None <==> Acceptable(old(history) + line)
      ensures error == None ==> Valid() && history == old(history) + line
      ensures error != None ==> accepted < |line| && Acceptable(old(history) + line[..accepted])
      ensures error != None ==> !Acceptable(old(history) + line[..accepted + 1])
      ensures error != None ==> (error == Some(NotUtf8) <==> !Extendable(old(history) + line[..accepted + 1]))
    {
      hide Extendable, ValidUtf8, Partial, FramesBounded, OpenLineEmpty, EndsInCR, OpenFrameBytes;
      accepted := 0;
      HistoryAcceptable();
      for index := 0 to |line|
        invariant Valid() && history == old(history) + line[..index] && Acceptable(history)
      {
        ghost var before := history;
        var ended;
        ended, error := Push(line[index]);
        assert line[..index + 1] == line[..index] + [line[index]];
        assert old(history) + line[..index + 1] == before + [line[index]];
        if error != None {
          accepted := index;
          UnacceptableStays(old(history) + line[..index + 1], line[index + 1..]);
          assert old(history) + line == old(history) + line[..index + 1] + line[index + 1..];
          return;
        }
      }
      assert line[..|line|] == line;
      error := None;
    }

    lemma HistoryAcceptable()
      requires Valid()
      ensures Acceptable(history)
    {
      PartialExtendable(utf8[..utf8Len]);
      ExtendableTail(whole, utf8[..utf8Len]);
    }
  }

  lemma Complete(w: seq<Byte>, c: seq<Byte>)
    requires ValidUtf8(w) && IsChar(c)
    ensures ValidUtf8(w + c) && Partial([])
  {
    CharValid(c);
    ValidConcat(w, c);
    PartialShape([]);
  }

  /** A stream once refused is refused with anything appended. */
  lemma {:induction false} UnacceptableStays(s: seq<Byte>, t: seq<Byte>)
    requires !Acceptable(s)
    ensures !Acceptable(s + t)
    decreases |t|
  {
    if t == [] {
      assert s + t == s;
    } else {
      BoundedStep(s, t[0]);
      if Extendable(s + [t[0]]) { ExtendablePrefix(s, t[0]); }
      UnacceptableStays(s + [t[0]], t[1..]);
      assert s + [t[0]] + t[1..] == s + t;
    }
  }
}
