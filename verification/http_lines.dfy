/** Reading a response line by line, chunk by chunk, under a size limit. */
module HttpLines {

  import opened Encoding
  import opened Results

  type Bytes = seq<U8>

  const LF: U8 := 10
  const CR: U8 := 13

  datatype LineError<+E> = TooLarge | BadLine(error: E)

  // ------------------------------------------------------ the lines of a body

  /** Position of the first line feed, or the length. */
  function FirstLf(s: Bytes): (n: nat)
    ensures n <= |s|
    ensures n < |s| ==> s[n] == LF
    ensures forall i :: 0 <= i < n ==> s[i] != LF
  {
    if s == [] || s[0] == LF then 0 else 1 + FirstLf(s[1..])
  }

  function TrimLineEnding(line: Bytes): Bytes
  {
    var l := if line != [] && line[|line| - 1] == LF then line[..|line| - 1] else line;
    if l != [] && l[|l| - 1] == CR then l[..|l| - 1] else l
  }

  /** The lines of a whole body: split at line feeds, one carriage return removed, a
      last line without its line feed kept if there is anything in it. */
  function Lines(body: Bytes): seq<Bytes>
    decreases |body|
  {
    var n := FirstLf(body);
    if body == [] then []
    else if n == |body| then [TrimLineEnding(body)]
    else [TrimLineEnding(body[..n + 1])] + Lines(body[n + 1..])
  }

  /** Values parsed so far with what one more line gives. */
  function Appended<T, E>(parsed: seq<T>, one: Result<Option<T>, E>): Result<seq<T>, E>
  {
    match one
    case Err(e) => Err(e)
    case Ok(None) => Ok(parsed)
    case Ok(Some(value)) => Ok(parsed + [value])
  }

  /** Parses lines in order up to the first one that does not parse. */
  function ParseAll<T, E>(lines: seq<Bytes>, parse: Bytes -> Result<Option<T>, E>): Result<seq<T>, E>
  {
    if lines == [] then Ok([])
    else
      match ParseAll(lines[..|lines| - 1], parse)
      case Err(e) => Err(e)
      case Ok(parsed) => Appended(parsed, parse(lines[|lines| - 1]))
  }

  lemma {:induction false} ParseParts<T, E>(a: seq<Bytes>, b: seq<Bytes>, parse: Bytes -> Result<Option<T>, E>)
    requires ParseAll(a, parse).Ok? && ParseAll(b, parse).Ok?
    ensures ParseAll(a + b, parse) == Ok(ParseAll(a, parse).value + ParseAll(b, parse).value)
  {
    if b == [] {
      assert a + b == a;
      assert ParseAll(a, parse).value + [] == ParseAll(a, parse).value;
    } else {
      var front, last := b[..|b| - 1], parse(b[|b| - 1]);
      ParseParts(a, front, parse);
      assert (a + b)[..|a + b| - 1] == a + front;
      var x, y := ParseAll(a, parse).value, ParseAll(front, parse).value;
      assert last.value.Some? ==> x + (y + [last.value.value]) == (x + y) + [last.value.value];
    }
  }

  /** What parsing gives: an error exactly if some line is bad, that of the first bad one;
      and otherwise exactly the values of the lines that have one. */
  lemma {:induction false} ParseAllMeans<T, E>(lines: seq<Bytes>, parse: Bytes -> Result<Option<T>, E>)
    ensures ParseAll(lines, parse).Ok? <==> forall i :: 0 <= i < |lines| ==> parse(lines[i]).Ok?
    ensures ParseAll(lines, parse).Err? ==>
              exists i :: 0 <= i < |lines| && parse(lines[i]) == Err(ParseAll(lines, parse).error)
                          && forall j :: 0 <= j < i ==> parse(lines[j]).Ok?
    ensures ParseAll(lines, parse).Ok? ==>
              forall v :: v in ParseAll(lines, parse).value <==>
                          exists i :: 0 <= i < |lines| && parse(lines[i]) == Ok(Some(v))
  {
    if lines == [] {
    } else {
      var front, last := lines[..|lines| - 1], |lines| - 1;
      ParseAllMeans(front, parse);
      assert forall i :: 0 <= i < last ==> lines[i] == front[i];
    }
  }

  // --------------------------------------------- complete lines and what is left

  /** The lines that have their line feed, and what follows the last of them. */
  datatype Split = Split(complete: seq<Bytes>, left: Bytes)

  const NOTHING: Split := Split([], [])

  function Feed(s: Split, x: U8): Split
  {
    if x == LF then Split(s.complete + [TrimLineEnding(s.left + [LF])], []) else Split(s.complete, s.left + [x])
  }

  /** A body split byte by byte. */
  function FeedAll(s: Split, body: Bytes): Split
  {
    if body == [] then s else Feed(FeedAll(s, body[..|body| - 1]), body[|body| - 1])
  }

  lemma FeedOne(s: Split, body: Bytes, x: U8)
    ensures FeedAll(s, body + [x]) == Feed(FeedAll(s, body), x)
  {
    assert (body + [x])[..|body|] == body;
  }

  /** What follows a body only meets what the body left over. */
  lemma {:induction false} MoreBytes(s: Split, a: Bytes, b: Bytes)
    ensures FeedAll(s, a + b) == FeedAll(FeedAll(s, a), b)
    decreases b
  {
    if b == [] {
      assert a + b == a;
    } else {
      var front, last := b[..|b| - 1], b[|b| - 1];
      MoreBytes(s, a, front);
      assert a + b == (a + front) + [last];
      FeedOne(s, a + front, last);
    }
  }

  /** Lines already complete stay in front. */
  lemma {:induction false} CompleteStays(done: seq<Bytes>, s: Split, body: Bytes)
    ensures var r := FeedAll(s, body);
            FeedAll(Split(done + s.complete, s.left), body) == Split(done + r.complete, r.left)
  {
    if body == [] {
    } else {
      CompleteStays(done, s, body[..|body| - 1]);
    }
  }

  lemma CompleteInFront(s: Split, body: Bytes)
    ensures s.complete <= FeedAll(s, body).complete
  {
    CompleteStays(s.complete, Split([], s.left), body);
    assert s.complete + [] == s.complete;
  }

  predicate HasNoLf(text: Bytes)
  {
    forall i :: 0 <= i < |text| ==> text[i] != LF
  }

  lemma {:induction false} FeedText(s: Split, text: Bytes)
    requires HasNoLf(text)
    ensures FeedAll(s, text) == Split(s.complete, s.left + text)
  {
    if text == [] {
      assert s.left + text == s.left;
    } else {
      FeedText(s, text[..|text| - 1]);
      assert s.left + text == (s.left + text[..|text| - 1]) + [text[|text| - 1]];
    }
  }

  /** One line with its line feed, and nothing before it. */
  predicate IsLine(line: Bytes)
  {
    line != [] && line[|line| - 1] == LF && HasNoLf(line[..|line| - 1])
  }

  lemma FeedLine(done: seq<Bytes>, line: Bytes)
    requires IsLine(line)
    ensures FeedAll(Split(done, []), line) == Split(done + [TrimLineEnding(line)], [])
  {
    var text := line[..|line| - 1];
    FeedText(Split(done, []), text);
    assert [] + text == text && line == text + [LF];
    FeedOne(Split(done, []), text, LF);
  }

  lemma FirstLineOf(body: Bytes, n: nat)
    requires n == FirstLf(body) < |body|
    ensures IsLine(body[..n + 1]) && body == body[..n + 1] + body[n + 1..]
  {
    var text := body[..n + 1][..n];
    forall i | 0 <= i < |text|
      ensures text[i] != LF
    {
      assert text[i] == body[i];
    }
  }

  lemma LinesStep(body: Bytes, n: nat, line: Bytes, rest: Bytes)
    requires n == FirstLf(body) < |body| && line == body[..n + 1] && rest == body[n + 1..]
    ensures Lines(body) == [TrimLineEnding(line)] + Lines(rest)
  {
  }

  /** A split with its last line, if there is anything in it. */
  function WithLast(s: Split): seq<Bytes>
  {
    if s.left == [] then s.complete else s.complete + [TrimLineEnding(s.left)]
  }

  /** Reading byte by byte finds the lines of the whole body. */
  lemma {:induction false} LinesAreCompleteAndLeft(body: Bytes)
    ensures Lines(body) == WithLast(FeedAll(NOTHING, body))
    decreases |body|
  {
    var n := FirstLf(body);
    if n == |body| {
      FeedText(NOTHING, body);
      assert [] + body == body;
    } else {
      var line, rest := body[..n + 1], body[n + 1..];
      FirstLineOf(body, n);
      LinesStep(body, n, line, rest);
      LinesAreCompleteAndLeft(rest);
      FeedLine([], line);
      MoreBytes(NOTHING, line, rest);
      CompleteStays([TrimLineEnding(line)], NOTHING, rest);
      FirstInFront(TrimLineEnding(line), FeedAll(NOTHING, rest));
    }
  }

  lemma FirstInFront(line: Bytes, s: Split)
    ensures WithLast(Split([line] + s.complete, s.left)) == [line] + WithLast(s)
    ensures Split([line] + [], []) == Split([] + [line], [])
  {
  }

  /** An early bad line is the answer whatever follows. */
  lemma {:induction false} ParseStopsEarly<T, E>(a: seq<Bytes>, b: seq<Bytes>, parse: Bytes -> Result<Option<T>, E>)
    requires ParseAll(a, parse).Err?
    ensures ParseAll(a + b, parse) == ParseAll(a, parse)
  {
    if b == [] {
      assert a + b == a;
    } else {
      ParseStopsEarly(a, b[..|b| - 1], parse);
      assert (a + b)[..|a + b| - 1] == a + b[..|b| - 1];
    }
  }

  lemma PrefixDecides<T, E>(a: seq<Bytes>, all: seq<Bytes>, parse: Bytes -> Result<Option<T>, E>, e: E)
    requires a <= all && ParseAll(a, parse) == Err(e)
    ensures ParseAll(all, parse) == Err(e)
  {
    ParseStopsEarly(a, all[|a|..], parse);
    assert all == a + all[|a|..];
  }

  lemma ParseOneMore<T, E>(lines: seq<Bytes>, line: Bytes, parse: Bytes -> Result<Option<T>, E>)
    ensures ParseAll(lines + [line], parse) ==
            match ParseAll(lines, parse)
            case Err(e) => Err(e)
            case Ok(parsed) => Appended(parsed, parse(line))
  {
  }

  // ------------------------------------------------------------ the chunked form

  /** What was taken out parses so far, and feeding the buffer ends where it should. */
  ghost predicate Draining<T, E>(goal: Split, seen: seq<Bytes>, carry: Bytes, parsed: seq<T>,
                                 parse: Bytes -> Result<Option<T>, E>)
  {
    FeedAll(Split(seen, []), carry) == goal && ParseAll(seen, parse) == Ok(parsed)
  }

  /** One line taken out of the buffer. */
  lemma DrainStep<T, E>(goal: Split, seen: seq<Bytes>, carry: Bytes, parsed: seq<T>,
                        parse: Bytes -> Result<Option<T>, E>,
                        line: Bytes, rest: Bytes, text: Bytes)
    requires Draining(goal, seen, carry, parsed, parse)
    requires carry == line + rest && IsLine(line) && text == TrimLineEnding(line)
    ensures match parse(text)
            case Err(e) => ParseAll(goal.complete, parse) == Err(e)
            case Ok(None) => Draining(goal, seen + [text], rest, parsed, parse)
            case Ok(Some(value)) => Draining(goal, seen + [text], rest, parsed + [value], parse)
  {
    FeedLine(seen, line);
    MoreBytes(Split(seen, []), line, rest);
    ParseOneMore(seen, text, parse);
    if parse(text).Err? {
      CompleteInFront(Split(seen + [text], []), rest);
      PrefixDecides(seen + [text], goal.complete, parse, parse(text).error);
    }
  }

  lemma Drained<T, E>(goal: Split, seen: seq<Bytes>, carry: Bytes, parsed: seq<T>, parse: Bytes -> Result<Option<T>, E>)
    requires Draining(goal, seen, carry, parsed, parse) && HasNoLf(carry)
    ensures goal == Split(seen, carry) && ParseAll(goal.complete, parse) == Ok(parsed)
  {
    FeedText(Split(seen, []), carry);
    assert [] + carry == carry;
  }

  /** Takes every complete line out of the buffer. */
  method DrainCompleteLines<T, E>(buffer: Bytes, parse: Bytes -> Result<Option<T>, E>, before: seq<T>,
                                  ghost done: seq<Bytes>)
    returns (carry: Bytes, parsed: seq<T>, error: Option<E>)
    requires ParseAll(done, parse) == Ok(before)
    ensures var goal := FeedAll(Split(done, []), buffer);
            match error
            case None => carry == goal.left && HasNoLf(carry) && ParseAll(goal.complete, parse) == Ok(parsed)
            case Some(e) => ParseAll(goal.complete, parse) == Err(e)
  {
    carry, parsed, error := buffer, before, None;
    ghost var seen, goal := done, FeedAll(Split(done, []), buffer);
    while FirstLf(carry) < |carry|
      invariant Draining(goal, seen, carry, parsed, parse)
      decreases |carry|
    {
      var newline := FirstLf(carry);
      var line, rest := carry[..newline + 1], carry[newline + 1..];
      var text := TrimLineEnding(line);
      FirstLineOf(carry, newline);
      DrainStep(goal, seen, carry, parsed, parse, line, rest, text);
      seen := seen + [text];
      carry := rest;
      match parse(text) {
        case Err(e) =>
          error := Some(e);
          return;
        case Ok(None) =>
        case Ok(Some(value)) =>
          parsed := parsed + [value];
      }
    }
    Drained(goal, seen, carry, parsed, parse);
  }

  function Joined(chunks: seq<Bytes>): Bytes
  {
    if chunks == [] then [] else Joined(chunks[..|chunks| - 1]) + chunks[|chunks| - 1]
  }

  lemma JoinedStep(chunks: seq<Bytes>, i: nat)
    requires i < |chunks|
    ensures Joined(chunks[..i + 1]) == Joined(chunks[..i]) + chunks[i]
  {
    assert chunks[..i + 1][..i] == chunks[..i];
  }

  lemma {:induction false} JoinedGrows(chunks: seq<Bytes>, i: nat)
    requires i <= |chunks|
    ensures Joined(chunks[..i]) <= Joined(chunks)
    decreases |chunks| - i
  {
    if i == |chunks| {
      assert chunks[..i] == chunks;
    } else {
      JoinedStep(chunks, i);
      JoinedGrows(chunks, i + 1);
    }
  }

  /** A body's lines begin with the complete lines of what it begins with. */
  lemma CompleteLinesBegin(a: Bytes, b: Bytes)
    ensures FeedAll(NOTHING, a).complete <= Lines(a + b)
  {
    MoreBytes(NOTHING, a, b);
    CompleteInFront(FeedAll(NOTHING, a), b);
    LinesAreCompleteAndLeft(a + b);
  }

  lemma CompleteLinesBeginIn(a: Bytes, body: Bytes)
    requires a <= body
    ensures FeedAll(NOTHING, a).complete <= Lines(body)
  {
    assert body == a + body[|a|..];
    CompleteLinesBegin(a, body[|a|..]);
  }

  /** Lines of a prefix that holds a bad one decide the whole body. */
  lemma BadPrefixDecides<T, E>(complete: seq<Bytes>, a: Bytes, body: Bytes, lines: seq<Bytes>,
                               parse: Bytes -> Result<Option<T>, E>, e: E)
    requires a <= body && complete == FeedAll(NOTHING, a).complete && lines == Lines(body)
    requires ParseAll(complete, parse) == Err(e)
    ensures ParseAll(lines, parse) == Err(e)
  {
    assert complete <= lines by {
      CompleteLinesBeginIn(a, body);
    }
    PrefixDecides(complete, lines, parse, e);
  }

  /** Read so far: the chunks are split, and their complete lines parsed. */
  ghost predicate ReadSoFar<T, E>(consumed: Bytes, carry: Bytes, parsed: seq<T>, parse: Bytes -> Result<Option<T>, E>)
  {
    var s := FeedAll(NOTHING, consumed);
    s.left == carry && HasNoLf(carry) && ParseAll(s.complete, parse) == Ok(parsed)
  }

  /** Carrying what is left over into the next chunk is reading on. */
  lemma CarriedOver(consumed: Bytes, s: Split, chunk: Bytes)
    requires s == FeedAll(NOTHING, consumed) && HasNoLf(s.left)
    ensures FeedAll(Split(s.complete, []), s.left + chunk) == FeedAll(NOTHING, consumed + chunk)
  {
    MoreBytes(NOTHING, consumed, chunk);
    FeedText(Split(s.complete, []), s.left);
    assert [] + s.left == s.left;
    MoreBytes(Split(s.complete, []), s.left, chunk);
  }

  /** At the end of the body: the last line, if there is anything in it. */
  lemma ReadToTheEnd<T, E>(body: Bytes, carry: Bytes, parsed: seq<T>, parse: Bytes -> Result<Option<T>, E>,
                           lines: seq<Bytes>)
    requires ReadSoFar(body, carry, parsed, parse) && lines == Lines(body)
    ensures carry == [] ==> ParseAll(lines, parse) == Ok(parsed)
    ensures carry != [] ==> ParseAll(lines, parse) == Appended(parsed, parse(TrimLineEnding(carry)))
  {
    LinesAreCompleteAndLeft(body);
    ParseOneMore(FeedAll(NOTHING, body).complete, TrimLineEnding(carry), parse);
  }

  function Lifted<T, E>(r: Result<T, E>): Result<T, LineError<E>>
  {
    match r
    case Ok(v) => Ok(v)
    case Err(e) => Err(BadLine(e))
  }

  /** The chunks one after the other, without regard to an announced length. */
  method ReadChunks<T, E>(chunks: seq<Bytes>, maxBytes: nat, parse: Bytes -> Result<Option<T>, E>,
                          ghost lines: seq<Bytes>)
    returns (r: Result<seq<T>, LineError<E>>)
    requires lines == Lines(Joined(chunks))
    ensures |Joined(chunks)| > maxBytes ==> r.Err?
    ensures |Joined(chunks)| <= maxBytes ==> r == Lifted(ParseAll(lines, parse))
  {
    var total, carry, parsed: seq<T> := 0, [], [];
    assert chunks[..|chunks|] == chunks;
    for i := 0 to |chunks|
      invariant total == |Joined(chunks[..i])| <= maxBytes
      invariant ReadSoFar(Joined(chunks[..i]), carry, parsed, parse)
    {
      ghost var consumed, done := Joined(chunks[..i]), FeedAll(NOTHING, Joined(chunks[..i]));
      JoinedStep(chunks, i);
      JoinedGrows(chunks, i + 1);
      total := total + |chunks[i]|;
      if total > maxBytes {
        return Err(TooLarge);
      }
      CarriedOver(consumed, done, chunks[i]);
      var error;
      carry, parsed, error := DrainCompleteLines(carry + chunks[i], parse, parsed, done.complete);
      if error.Some? {
        BadPrefixDecides(FeedAll(NOTHING, consumed + chunks[i]).complete, consumed + chunks[i], Joined(chunks), lines,
                         parse, error.value);
        return Err(BadLine(error.value));
      }
    }
    ReadToTheEnd(Joined(chunks), carry, parsed, parse, lines);
    if carry == [] {
      return Ok(parsed);
    }
    match parse(TrimLineEnding(carry)) {
      case Err(e) =>
        r := Err(BadLine(e));
      case Ok(None) =>
        r := Ok(parsed);
      case Ok(Some(value)) =>
        r := Ok(parsed + [value]);
    }
  }

  /** However the body is cut into chunks, within the limit the answer is that of
      parsing the lines of the whole body, the first bad line included; over the limit,
      or announced to be, it is an error. */
  method ReadLimitedLines<T, E>(contentLength: Option<nat>, chunks: seq<Bytes>, maxBytes: nat,
                                parse: Bytes -> Result<Option<T>, E>)
    returns (r: Result<seq<T>, LineError<E>>)
    ensures contentLength.Some? && contentLength.value > maxBytes ==> r == Err(TooLarge)
    ensures |Joined(chunks)| > maxBytes ==> r.Err?
    ensures (contentLength.Some? ==> contentLength.value <= maxBytes) && |Joined(chunks)| <= maxBytes ==>
              r == Lifted(ParseAll(Lines(Joined(chunks)), parse))
  {
    if contentLength.Some? && contentLength.value > maxBytes {
      return Err(TooLarge);
    }
    r := ReadChunks(chunks, maxBytes, parse, Lines(Joined(chunks)));
  }

  // ---------------------------------------------------------- written and read

  /** A line of text and whether it is written with a carriage return. */
  datatype Written = Written(text: Bytes, crlf: bool)

  /** No line feed in it, and written with a bare line feed it must not end in a
      carriage return. */
  predicate Writable(w: Written)
  {
    HasNoLf(w.text) && (w.crlf || w.text == [] || w.text[|w.text| - 1] != CR)
  }

  function Ended(w: Written): Bytes
  {
    w.text + (if w.crlf then [CR, LF] else [LF])
  }

  function Document(lines: seq<Written>): Bytes
  {
    if lines == [] then [] else Ended(lines[0]) + Document(lines[1..])
  }

  function Texts(lines: seq<Written>): seq<Bytes>
  {
    if lines == [] then [] else [lines[0].text] + Texts(lines[1..])
  }

  lemma EndedReads(w: Written)
    requires Writable(w)
    ensures IsLine(Ended(w)) && TrimLineEnding(Ended(w)) == w.text
  {
    var line := Ended(w);
    assert line[..|line| - 1] == w.text + (if w.crlf then [CR] else []);
  }

  lemma FirstLineRead(line: Bytes, rest: Bytes)
    requires IsLine(line)
    ensures Lines(line + rest) == [TrimLineEnding(line)] + Lines(rest)
  {
    var body, n := line + rest, |line| - 1;
    assert body[n] == LF && forall i :: 0 <= i < n ==> body[i] == line[..n][i];
    assert FirstLf(body) == n;
    assert body[..n + 1] == line && body[n + 1..] == rest;
    LinesStep(body, n, line, rest);
  }

  /** Lines written with either ending read back as they were. */
  lemma {:induction false} WrittenLinesRead(lines: seq<Written>)
    requires forall i :: 0 <= i < |lines| ==> Writable(lines[i])
    ensures Lines(Document(lines)) == Texts(lines)
  {
    if lines == [] {
    } else {
      WrittenLinesRead(lines[1..]);
      EndedReads(lines[0]);
      FirstLineRead(Ended(lines[0]), Document(lines[1..]));
    }
  }

  lemma UnterminatedLine(last: Bytes)
    requires HasNoLf(last) && last != []
    ensures Lines(last) == [if last[|last| - 1] == CR then last[..|last| - 1] else last]
  {
    assert FirstLf(last) == |last|;
  }

  lemma FirstOfDocument(lines: seq<Written>, last: Bytes)
    requires lines != []
    ensures Document(lines) + last == Ended(lines[0]) + (Document(lines[1..]) + last)
  {
  }

  /** And so does a last line without its line feed, if there is anything in it; one
      carriage return at its end is removed. */
  lemma {:induction false} LastLineRead(lines: seq<Written>, last: Bytes)
    requires forall i :: 0 <= i < |lines| ==> Writable(lines[i])
    requires HasNoLf(last) && last != []
    ensures Lines(Document(lines) + last) == Texts(lines) + Lines(last)
    ensures Lines(last) == [if last[|last| - 1] == CR then last[..|last| - 1] else last]
  {
    UnterminatedLine(last);
    if lines == [] {
      assert [] + last == last;
    } else {
      LastLineRead(lines[1..], last);
      EndedReads(lines[0]);
      FirstOfDocument(lines, last);
      FirstLineRead(Ended(lines[0]), Document(lines[1..]) + last);
    }
  }
}
