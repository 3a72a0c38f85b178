/** The PEM envelope: 64-column base64 between two marker lines. */
module Pem {
  import opened Wrappers
  import opened Text

  const PEM_BEGIN := "-----BEGIN KYC CERTIFICATE PROOF-----"
  const PEM_END := "-----END KYC CERTIFICATE PROOF-----"
  const PEM_LINE_LENGTH := 64
  const DASHES := "-----"

  predicate Base64Char(c: char) {
    'A' <= c <= 'Z' || 'a' <= c <= 'z' || '0' <= c <= '9' || c == '+' || c == '/' || c == '='
  }

  // The standard base64 codec (section 4 of RFC 4648) of the base64 library.
  datatype Base64 = Base64(encode: Bytes -> string, decode: string -> Option<Bytes>) {
    /** Decoding inverts encoding, which stays in the alphabet and is empty only
        for empty input. */
    ghost predicate Lawful() {
      forall b ::
        && decode(encode(b)) == Some(b)
        && (forall i :: 0 <= i < |encode(b)| ==> Base64Char(encode(b)[i]))
        && (encode(b) == "" <==> b == [])
    }
  }

  datatype PemError = InvalidPem | InvalidBase64

  // ---- Specification --------------------------------------------------------

  function Chunks(s: string, width: nat): seq<string>
    requires width > 0
  {
    if s == "" then []
    else if |s| <= width then [s]
    else [s[..width]] + Chunks(s[width..], width)
  }

  function Concat(parts: seq<string>): string {
    if parts == [] then "" else parts[0] + Concat(parts[1..])
  }

  /** Each line preceded by a line break. */
  function OnNewLines(lines: seq<string>): string {
    if lines == [] then "" else "\n" + lines[0] + OnNewLines(lines[1..])
  }

  function Envelope(body: string, width: nat): string
    requires width > 0
  {
    PEM_BEGIN + OnNewLines(Chunks(body, width)) + "\n" + PEM_END
  }

  function EncodePem(b64: Base64, encoded: Bytes): string {
    Envelope(b64.encode(encoded), PEM_LINE_LENGTH)
  }

  function BreakAt(s: string, i: nat): (r: nat)
    requires i <= |s|
    ensures i <= r <= |s| && (forall j :: i <= j < r ==> s[j] != '\n') && (r < |s| ==> s[r] == '\n')
    decreases |s| - i
  {
    if i == |s| || s[i] == '\n' then i else BreakAt(s, i + 1)
  }

  function StripCarriageReturn(s: string): string {
    if s != "" && s[|s| - 1] == '\r' then s[..|s| - 1] else s
  }

  /** Lines without their endings, "\n" or "\r\n"; the last ending is optional. */
  function Lines(s: string): seq<string>
    decreases |s|
  {
    if s == "" then []
    else
      var n := BreakAt(s, 0);
      if n == |s| then [s] else [StripCarriageReturn(s[..n])] + Lines(s[n + 1..])
  }

  function BodyLine(line: string): string {
    var trimmed := Trim(line);
    if trimmed == "" || StartsWith(trimmed, DASHES) then "" else trimmed
  }

  function Body(lines: seq<string>): string {
    if lines == [] then "" else BodyLine(lines[0]) + Body(lines[1..])
  }

  function DecodePem(b64: Base64, pem: string): Result<Bytes, PemError> {
    var body := Body(Lines(pem));
    if body == "" then Err(InvalidPem)
    else match b64.decode(body) case None => Err(InvalidBase64) case Some(b) => Ok(b)
  }

  // ---- The loops ------------------------------------------------------------

  lemma {:induction false} OnNewLinesAppend(lines: seq<string>, last: string)
    ensures OnNewLines(lines + [last]) == OnNewLines(lines) + "\n" + last
  {
    if lines == [] {
      assert [last][1..] == [] && lines + [last] == [last];
    } else {
      assert (lines + [last])[0] == lines[0] && (lines + [last])[1..] == lines[1..] + [last];
      OnNewLinesAppend(lines[1..], last);
    }
  }

  method PrintPem(b64: Base64, encoded: Bytes) returns (pem: string)
    ensures pem == EncodePem(b64, encoded)
  {
    var body := b64.encode(encoded);
    var chunks := Chunks(body, PEM_LINE_LENGTH);
    pem := PEM_BEGIN;
    for i := 0 to |chunks|
      invariant pem == PEM_BEGIN + OnNewLines(chunks[..i])
    {
      OnNewLinesAppend(chunks[..i], chunks[i]);
      assert chunks[..i + 1] == chunks[..i] + [chunks[i]];
      pem := pem + "\n";
      pem := pem + chunks[i];
    }
    assert chunks[..|chunks|] == chunks;
    pem := pem + "\n";
    pem := pem + PEM_END;
  }

  lemma {:induction false} BodyAppend(lines: seq<string>, last: string)
    ensures Body(lines + [last]) == Body(lines) + BodyLine(last)
  {
    if lines == [] {
      assert lines + [last] == [last] && [last][1..] == [];
    } else {
      assert (lines + [last])[0] == lines[0] && (lines + [last])[1..] == lines[1..] + [last];
      BodyAppend(lines[1..], last);
    }
  }

  method ParsePem(b64: Base64, pem: string) returns (r: Result<Bytes, PemError>)
    ensures r == DecodePem(b64, pem)
  {
    var lines := Lines(pem);
    var body := "";
    assert Body(lines[..0]) == "";
    hide Lines, Body, Trim, StartsWith;
    for i := 0 to |lines|
      invariant body == Body(lines[..i])
    {
      BodyAppend(lines[..i], lines[i]);
      assert lines[..i + 1] == lines[..i] + [lines[i]];
      var trimmed := Trim(lines[i]);
      if trimmed == "" || StartsWith(trimmed, DASHES) {
        continue;
      }
      body := body + trimmed;
    }
    assert lines[..|lines|] == lines;
    if body == "" {
      return Err(InvalidPem);
    }
    match b64.decode(body)
    case None => return Err(InvalidBase64);
    case Some(b) => return Ok(b);
  }

  // ---- The round trip -------------------------------------------------------

  /** A line the reader keeps as it is: printable, not empty, not dashes. */
  predicate PlainLine(line: string) {
    line != "" && Printable(line) && line[0] != '-'
  }

  predicate Unbroken(line: string) {
    forall i :: 0 <= i < |line| ==> line[i] != '\n' && line[i] != '\r'
  }

  lemma PlainIsUnbroken(line: string)
    requires PlainLine(line)
    ensures Unbroken(line)
  {
  }

  lemma {:induction false} LinesFirst(line: string, rest: string)
    requires Unbroken(line)
    ensures Lines(line + "\n" + rest) == [line] + Lines(rest)
  {
    var s := line + "\n" + rest;
    assert forall i :: 0 <= i < |line| ==> s[i] == line[i];
    assert s[|line|] == '\n';
    var n := BreakAt(s, 0);
    assert n == |line|;
    assert s[..n] == line && s[n + 1..] == rest;
  }

  lemma {:induction false} LinesOfEnvelope(first: string, lines: seq<string>, last: string)
    requires Unbroken(first) && last != "" && Unbroken(last)
    requires forall l :: l in lines ==> PlainLine(l)
    ensures Lines(first + OnNewLines(lines) + "\n" + last) == [first] + lines + [last]
    decreases |lines|
  {
    if lines == [] {
      assert first + OnNewLines(lines) + "\n" + last == first + "\n" + last;
      LinesFirst(first, last);
      LastLine(last);
    } else {
      var rest := lines[0] + OnNewLines(lines[1..]) + "\n" + last;
      Reassociate(first, "\n", lines[0], OnNewLines(lines[1..]), "\n", last);
      hide Lines, OnNewLines, PlainLine, Unbroken;
      LinesFirst(first, rest);
      assert lines[0] in lines && forall l :: l in lines[1..] ==> l in lines;
      PlainIsUnbroken(lines[0]);
      LinesOfEnvelope(lines[0], lines[1..], last);
      ReassociateLines(first, lines, last);
    }
  }

  lemma Reassociate(a: string, b: string, c: string, d: string, e: string, f: string)
    ensures a + (b + c + d) + e + f == a + b + (c + d + e + f)
  {
  }

  lemma ReassociateLines(first: string, lines: seq<string>, last: string)
    requires lines != []
    ensures [first] + ([lines[0]] + lines[1..] + [last]) == [first] + lines + [last]
  {
  }

  lemma LastLine(last: string)
    requires last != "" && Unbroken(last)
    ensures Lines(last) == [last]
  {
  }

  lemma {:induction false} BodyOfPlain(lines: seq<string>)
    requires forall l :: l in lines ==> PlainLine(l)
    ensures Body(lines) == Concat(lines)
  {
    if lines != [] {
      assert lines[0] in lines;
      TrimPrintable(lines[0]);
      BodyOfPlain(lines[1..]);
    }
  }

  lemma {:induction false} ChunksJoin(s: string, width: nat)
    requires width > 0 && (forall i :: 0 <= i < |s| ==> Base64Char(s[i]))
    ensures Concat(Chunks(s, width)) == s
    ensures forall l :: l in Chunks(s, width) ==> PlainLine(l) && |l| <= width
    decreases |s|
  {
    if s == "" {
    } else if |s| <= width {
      assert [s][1..] == [] && s + "" == s;
    } else {
      ChunksJoin(s[width..], width);
      var chunks := Chunks(s, width);
      assert chunks == [s[..width]] + Chunks(s[width..], width);
      assert chunks[1..] == Chunks(s[width..], width);
      assert s[..width] + s[width..] == s;
      forall l | l in chunks ensures PlainLine(l) && |l| <= width {
        if l != chunks[0] { assert l in chunks[1..]; }
      }
    }
  }

  lemma MarkersSkipped()
    ensures BodyLine(PEM_BEGIN) == "" && BodyLine(PEM_END) == ""
    ensures PEM_END != ""
    ensures Unbroken(PEM_BEGIN) && Unbroken(PEM_END)
  {
    assert !IsSpace(PEM_BEGIN[0]) && !IsSpace(PEM_BEGIN[|PEM_BEGIN| - 1]);
    assert Trim(PEM_BEGIN) == PEM_BEGIN;
    assert PEM_BEGIN[..5] == DASHES;
    assert !IsSpace(PEM_END[0]) && !IsSpace(PEM_END[|PEM_END| - 1]);
    assert Trim(PEM_END) == PEM_END;
    assert PEM_END[..5] == DASHES;
  }

  /** At any column width, reading the envelope gives the body back. */
  lemma EnvelopeBody(body: string, width: nat)
    requires width > 0 && (forall i :: 0 <= i < |body| ==> Base64Char(body[i]))
    ensures Body(Lines(Envelope(body, width))) == body
  {
    hide PEM_BEGIN, PEM_END, BodyLine, Concat, OnNewLines, Chunks, PlainLine, Unbroken, Lines;
    var chunks := Chunks(body, width);
    ChunksJoin(body, width);
    MarkersSkipped();
    LinesOfEnvelope(PEM_BEGIN, chunks, PEM_END);
    BodyOfPlain(chunks);
    var lines := [PEM_BEGIN] + chunks + [PEM_END];
    assert lines[1..] == chunks + [PEM_END];
    assert Body(lines) == BodyLine(PEM_BEGIN) + Body(chunks + [PEM_END]);
    BodyAppend(chunks, PEM_END);
    assert body + "" == body && "" + body == body;
  }

  /** `text` is cut into lines of `width` columns, only the last of them shorter. */
  ghost predicate Columns(text: string, lines: seq<string>, width: nat) {
    && Concat(lines) == text
    && (forall i :: 0 <= i < |lines| - 1 ==> |lines[i]| == width)
    && (lines != [] ==> 0 < |lines[|lines| - 1]| <= width)
  }

  lemma {:induction false} ChunksAreColumns(s: string, width: nat)
    requires width > 0
    ensures Columns(s, Chunks(s, width), width)
    decreases |s|
  {
    if 0 < |s| <= width {
      assert [s][1..] == [] && s + "" == s;
    } else if |s| > width {
      ChunksAreColumns(s[width..], width);
      var rest := Chunks(s[width..], width);
      assert Chunks(s, width)[1..] == rest && s[..width] + s[width..] == s;
      assert rest != [];
    }
  }

  /** The printed text, line by line: the opening marker, the body in full lines of
      64 columns but for the last, and the closing marker. */
  lemma PrintedLines(b64: Base64, encoded: Bytes)
    requires b64.Lawful()
    ensures
      var lines := Lines(EncodePem(b64, encoded));
      && |lines| >= 2
      && lines[0] == "-----BEGIN KYC CERTIFICATE PROOF-----" && lines[|lines| - 1] == "-----END KYC CERTIFICATE PROOF-----"
      && Columns(b64.encode(encoded), lines[1..|lines| - 1], 64)
  {
    hide Lines, Chunks, Concat, OnNewLines, PlainLine, Unbroken, Columns, PEM_BEGIN, PEM_END;
    var body := b64.encode(encoded);
    ChunksJoin(body, PEM_LINE_LENGTH);
    ChunksAreColumns(body, PEM_LINE_LENGTH);
    MarkersSkipped();
    var chunks := Chunks(body, PEM_LINE_LENGTH);
    LinesOfEnvelope(PEM_BEGIN, chunks, PEM_END);
    var lines := [PEM_BEGIN] + chunks + [PEM_END];
    assert lines[1..|lines| - 1] == chunks;
    MarkerTexts();
  }

  lemma MarkerTexts()
    ensures PEM_BEGIN == "-----BEGIN KYC CERTIFICATE PROOF-----" && PEM_END == "-----END KYC CERTIFICATE PROOF-----"
  {
  }

  /** Every non-empty payload survives the envelope; an empty one is rejected. */
  lemma PemRoundTrip(b64: Base64, encoded: Bytes)
    requires b64.Lawful()
    ensures DecodePem(b64, EncodePem(b64, encoded)) == if encoded == [] then Err(InvalidPem) else Ok(encoded)
  {
    EnvelopeBody(b64.encode(encoded), PEM_LINE_LENGTH);
  }
}
