/** Certificate lists as they are printed, and that reading them gives back what was printed. */
module CertRoundTrip {
  import opened Text
  import opened CertData
  import opened Options

  // ---------- octal ----------

  predicate IsByte(c: char) {
    c as int < 256
  }

  predicate AllBytes(s: string) {
    forall c | c in s :: IsByte(c)
  }

  function Digit(n: int): char
    requires 0 <= n < 8
  {
    ('0' as int + n) as char
  }

  function OctalWord(c: char): (w: string)
    requires IsByte(c)
    ensures |w| == 3 && '\\' !in w
  {
    [Digit(c as int / 64), Digit(c as int / 8 % 8), Digit(c as int % 8)]
  }

  lemma DigitIs(n: int)
    requires 0 <= n < 8
    ensures OctalDigit(Digit(n)) && Digit(n) as int - '0' as int == n
  {
  }

  lemma OctalFirst(n: int)
    requires 0 <= n < 8
    ensures Octal([Digit(n)]) == Some(n)
  {
    DigitIs(n);
    hide Digit;
  }

  lemma OctalNext(word: string, n: int)
    requires 0 <= n < 8 && word != "" && Octal(word).Some?
    ensures Octal(word + [Digit(n)]) == Some(Octal(word).value * 8 + n)
  {
    DigitIs(n);
    hide Digit, OctalDigit;
    var longer := word + [Digit(n)];
    assert longer[..|longer|-1] == word;
  }

  lemma OctalOfWord(c: char)
    requires IsByte(c)
    ensures Octal(OctalWord(c)) == Some(c as int)
  {
    hide Octal, Digit;
    var n := c as int;
    var high, middle, low := n / 64, n / 8 % 8, n % 8;
    OctalFirst(high);
    OctalNext([Digit(high)], middle);
    OctalNext([Digit(high)] + [Digit(middle)], low);
    assert [Digit(high)] + [Digit(middle)] + [Digit(low)] == OctalWord(c);
    hide OctalWord;
    assert (high * 8 + middle) * 8 + low == n;
  }

  function Words(chunk: string): (ws: seq<string>)
    requires AllBytes(chunk)
    ensures |ws| == |chunk| && forall w | w in ws :: |w| == 3 && '\\' !in w
  {
    if chunk == "" then [] else [OctalWord(chunk[0])] + Words(chunk[1..])
  }

  /** One line of a block: every character as a backslash and three octal digits. */
  function OctalLine(chunk: string): string
    requires AllBytes(chunk)
  {
    "\\" + Join(Words(chunk), '\\')
  }

  lemma {:induction false} DecodeOfWords(chunk: string)
    requires AllBytes(chunk)
    ensures DecodeWords(Words(chunk)) == Some(chunk)
  {
    hide Octal, OctalWord;
    if chunk != "" {
      DecodeOfWords(chunk[1..]);
      OctalOfWord(chunk[0]);
      DecodeStep(OctalWord(chunk[0]), chunk[0], Words(chunk[1..]));
      assert [chunk[0]] + chunk[1..] == chunk;
    }
  }

  lemma DecodeStep(word: string, c: char, rest: seq<string>)
    requires word != "" && IsByte(c) && Octal(word) == Some(c as int) && DecodeWords(rest).Some?
    ensures DecodeWords([word] + rest) == Some([c] + DecodeWords(rest).value)
  {
    hide Octal;
    assert ([word] + rest)[1..] == rest;
  }

  lemma DecodeSkips(rest: seq<string>)
    ensures DecodeWords([""] + rest) == DecodeWords(rest)
  {
    assert ([""] + rest)[1..] == rest;
  }

  lemma DecodeOfLine(chunk: string)
    requires chunk != "" && AllBytes(chunk)
    ensures DecodeLine(OctalLine(chunk)) == Some(chunk)
  {
    hide Split, Join, DecodeWords;
    SplitAt("", '\\', Join(Words(chunk), '\\'));
    assert "" + ['\\'] + Join(Words(chunk), '\\') == OctalLine(chunk);
    assert |Words(chunk)| > 0;
    hide Words, OctalWord;
    SplitJoin(Words(chunk), '\\');
    DecodeOfWords(chunk);
    DecodeSkips(Words(chunk));
  }

  lemma OctalLineStart(chunk: string)
    requires AllBytes(chunk)
    ensures OctalLine(chunk) != "" && OctalLine(chunk)[0] == '\\'
  {
  }

  /** The lines of a block: none is empty. */
  predicate Chunks(chunks: seq<string>) {
    chunks == [] || (chunks[0] != "" && AllBytes(chunks[0]) && Chunks(chunks[1..]))
  }

  function Concat(chunks: seq<string>): string {
    if chunks == [] then "" else chunks[0] + Concat(chunks[1..])
  }

  function Block(chunks: seq<string>): seq<string>
    requires Chunks(chunks)
  {
    if chunks == [] then ["END"] else [OctalLine(chunks[0])] + Block(chunks[1..])
  }

  /** However the bytes are divided into lines, the block reads back as all of them. */
  lemma {:induction false} ReadOfBlock(chunks: seq<string>, rest: seq<string>)
    requires Chunks(chunks)
    ensures ReadOctal(Block(chunks) + rest) == (Token(NoError, Concat(chunks)), rest)
  {
    hide DecodeLine, OctalLine;
    var lines := Block(chunks) + rest;
    if chunks == [] {
      assert lines[0] == END && lines[1..] == rest;
    } else {
      ReadOfBlock(chunks[1..], rest);
      assert lines[1..] == Block(chunks[1..]) + rest;
      DecodeOfLine(chunks[0]);
      OctalLineStart(chunks[0]);
      assert lines[0] == OctalLine(chunks[0]) && lines[0][0] == '\\' && END[0] == 'E';
    }
  }

  // ---------- fields ----------

  /** A field with the lines before it that belong to nothing that is read. */
  datatype Field =
    | Plain(gap: seq<string>, kind: string, text: string)
    | OctalField(gap: seq<string>, chunks: seq<string>)

  function Value(f: Field): string {
    match f
    case Plain(_, _, text) => text
    case OctalField(_, chunks) => Concat(chunks)
  }

  predicate IsGap(lines: seq<string>, token: string) {
    forall l | l in lines :: First(l) != token
  }

  predicate FieldOk(f: Field) {
    match f
    case Plain(_, kind, _) => ' ' !in kind && kind != "MULTILINE_OCTAL"
    case OctalField(_, chunks) => Chunks(chunks)
  }

  function FieldLines(f: Field, token: string): seq<string>
    requires FieldOk(f)
  {
    match f
    case Plain(gap, kind, text) => gap + [token + " " + kind + " " + text]
    case OctalField(gap, chunks) => gap + [token + " " + "MULTILINE_OCTAL"] + Block(chunks)
  }

  lemma {:induction false} SkipGap(gap: seq<string>, token: string, rest: seq<string>)
    requires IsGap(gap, token)
    ensures ReadTokenValue(gap + rest, token) == ReadTokenValue(rest, token)
  {
    if gap == [] {
      assert gap + rest == rest;
    } else {
      SkipGap(gap[1..], token, rest);
      assert (gap + rest)[1..] == gap[1..] + rest;
      assert gap[0] in gap;
    }
  }

  lemma SplitPlainLine(token: string, kind: string, text: string)
    requires ' ' !in token && ' ' !in kind
    ensures Split(token + " " + kind + " " + text, ' ') == [token, kind] + Split(text, ' ')
  {
    hide Split;
    SplitAt(kind, ' ', text);
    SplitAt(token, ' ', kind + [' '] + text);
    assert token + " " + kind + " " + text == token + [' '] + (kind + [' '] + text);
    assert [token] + ([kind] + Split(text, ' ')) == [token, kind] + Split(text, ' ');
  }

  lemma ReadOfLine(line: string, token: string, rest: seq<string>)
    requires First(line) == token
    ensures ReadTokenValue([line] + rest, token)
      == var fields := Split(line, ' ');
        if |fields| == 1 then (Token(Crashed, ""), rest)
        else if fields[1] != MULTILINE then (Token(NoError, Join(fields[2..], ' ')), rest)
        else ReadOctal(rest)
  {
    assert ([line] + rest)[1..] == rest;
  }

  lemma ReadOfPlain(token: string, kind: string, text: string, rest: seq<string>)
    requires ' ' !in token && ' ' !in kind && kind != MULTILINE
    ensures ReadTokenValue([token + " " + kind + " " + text] + rest, token) == (Token(NoError, text), rest)
  {
    hide Split, ReadTokenValue, Join;
    var line := token + " " + kind + " " + text;
    SplitPlainLine(token, kind, text);
    assert Split(line, ' ')[2..] == Split(text, ' ');
    JoinSplit(text, ' ');
    ReadOfLine(line, token, rest);
  }

  lemma ReadOfOctal(token: string, chunks: seq<string>, rest: seq<string>)
    requires ' ' !in token && Chunks(chunks)
    ensures ReadTokenValue([token + " " + MULTILINE] + (Block(chunks) + rest), token)
      == (Token(NoError, Concat(chunks)), rest)
  {
    var line := token + " " + MULTILINE;
    assert ' ' !in MULTILINE;
    hide Split, ReadTokenValue, Join, ReadOctal, Block, Concat, Chunks;
    SplitAt(token, ' ', MULTILINE);
    SplitPlain(MULTILINE, ' ');
    assert token + [' '] + MULTILINE == line;
    ReadOfBlock(chunks, rest);
    ReadOfLine(line, token, Block(chunks) + rest);
  }

  /** A printed field reads back as its value, with exactly its lines used up. */
  lemma ReadOfField(f: Field, token: string, rest: seq<string>)
    requires FieldOk(f) && ' ' !in token && IsGap(f.gap, token)
    ensures ReadTokenValue(FieldLines(f, token) + rest, token) == (Token(NoError, Value(f)), rest)
  {
    hide ReadTokenValue, IsGap, Chunks, Block, Concat;
    match f
    case Plain(gap, kind, text) =>
      var line := token + " " + kind + " " + text;
      assert FieldLines(f, token) + rest == gap + ([line] + rest);
      SkipGap(gap, token, [line] + rest);
      ReadOfPlain(token, kind, text, rest);
    case OctalField(gap, chunks) =>
      var line := token + " " + MULTILINE;
      assert FieldLines(f, token) + rest == gap + ([line] + (Block(chunks) + rest));
      SkipGap(gap, token, [line] + (Block(chunks) + rest));
      ReadOfOctal(token, chunks, rest);
  }

  lemma {:induction false} BlockIsGap(chunks: seq<string>, token: string)
    requires Chunks(chunks) && token != END && token != "" && token[0] != '\\'
    ensures IsGap(Block(chunks), token)
  {
    if chunks == [] {
      SplitPlain(END, ' ');
    } else {
      BlockIsGap(chunks[1..], token);
      var line := OctalLine(chunks[0]);
      JoinSplit(line, ' ');
      var fields := Split(line, ' ');
      OctalLineStart(chunks[0]);
      assert fields[0] != "" ==> Join(fields, ' ')[0] == fields[0][0];
    }
  }

  /** A field of another name can stand in a gap: looking for a token never stops inside the block
      or the text of another field. */
  lemma FieldIsGap(f: Field, other: string, token: string)
    requires FieldOk(f) && IsGap(f.gap, token) && ' ' !in other && other != token
    requires token != END && token != "" && token[0] != '\\'
    ensures IsGap(FieldLines(f, other), token)
  {
    match f
    case Plain(gap, kind, text) =>
      SplitPlainLine(other, kind, text);
    case OctalField(gap, chunks) =>
      SplitAt(other, ' ', MULTILINE);
      assert other + [' '] + MULTILINE == other + " " + MULTILINE;
      BlockIsGap(chunks, token);
  }

  // ---------- trust settings ----------

  /** A setting's name, with blanks other than spaces around it, and its value. */
  datatype Trust = Trust(before: string, name: string, after: string, setting: string)

  predicate TrustOk(t: Trust) {
    && Blank(t.before) && Blank(t.after) && Trimmed(t.name)
    && ' ' !in TrustName(t) && TrustName(t) != "CKA_TRUST_STEP_UP_APPROVED" && ' ' !in t.setting
  }

  function TrustName(t: Trust): string {
    t.before + t.name + t.after
  }

  function TrustLine(t: Trust): string {
    TrustName(t) + " " + "CK_TRUST" + " " + t.setting
  }

  function TrustLines(ts: seq<Trust>, last: string): seq<string> {
    if ts == [] then [last] else [TrustLine(ts[0])] + TrustLines(ts[1..], last)
  }

  function Trusted(ts: seq<Trust>): seq<string> {
    if ts == [] then []
    else (if ts[0].setting == "CKT_NETSCAPE_TRUSTED_DELEGATOR" then [ts[0].name] else []) + Trusted(ts[1..])
  }

  lemma TrustStep(t: Trust, lines: seq<string>)
    requires TrustOk(t)
    ensures var (code, rest, left) := TrustValues(lines);
      code == NoError ==>
        TrustValues([TrustLine(t)] + lines)
        == (NoError, (if t.setting == TRUSTED_DELEGATOR then [t.name] else []) + rest, left)
  {
    TrustFields(t);
    StripAround(t.before, t.name, t.after);
    assert ([TrustLine(t)] + lines)[1..] == lines;
    hide Split, Strip, TrustLine, TrustName;
  }

  lemma TrustFields(t: Trust)
    requires TrustOk(t)
    ensures Split(TrustLine(t), ' ') == [TrustName(t), "CK_TRUST", t.setting]
  {
    assert ' ' !in "CK_TRUST";
    hide Split, TrustName;
    SplitPlainLine(TrustName(t), "CK_TRUST", t.setting);
    SplitPlain(t.setting, ' ');
  }

  lemma {:induction false} ReadOfTrusts(ts: seq<Trust>, last: string, rest: seq<string>)
    requires (forall t | t in ts :: TrustOk(t)) && First(last) == STEP_UP
    ensures TrustValues(TrustLines(ts, last) + rest) == (NoError, Trusted(ts), rest)
    ensures TrustLines(ts, last) != []
  {
    var lines := TrustLines(ts, last) + rest;
    if ts == [] {
      assert lines[0] == last && lines[1..] == rest;
    } else {
      assert TrustOk(ts[0]);
      ReadOfTrusts(ts[1..], last, rest);
      assert lines == [TrustLine(ts[0])] + (TrustLines(ts[1..], last) + rest);
      hide TrustLines, TrustValues, TrustOk;
      TrustStep(ts[0], TrustLines(ts[1..], last) + rest);
    }
  }

  // ---------- records ----------

  datatype Layout = Layout(
    kind: Field, name: Field, certType: Field, serial: Field, data: Field,
    trustKind: Field, trustName: Field, hash: Field, trustSerial: Field, trusts: seq<Trust>, last: string)

  predicate Ok(f: Field, token: string) {
    FieldOk(f) && IsGap(f.gap, token)
  }

  predicate CertOk(l: Layout) {
    && Ok(l.kind, "CKA_CLASS") && Value(l.kind) == "CKO_CERTIFICATE"
    && Ok(l.name, "CKA_LABEL") && Ok(l.certType, "CKA_CERTIFICATE_TYPE")
    && Ok(l.serial, "CKA_SERIAL_NUMBER") && Ok(l.data, "CKA_VALUE")
  }

  predicate TrustPartOk(l: Layout) {
    && Ok(l.trustKind, "CKA_CLASS") && Value(l.trustKind) == "CKO_NETSCAPE_TRUST"
    && Ok(l.trustName, "CKA_LABEL") && Value(l.trustName) == Value(l.name)
    && Ok(l.hash, "CKA_CERT_SHA1_HASH") && Ok(l.trustSerial, "CKA_SERIAL_NUMBER")
    && (forall t | t in l.trusts :: TrustOk(t)) && First(l.last) == "CKA_TRUST_STEP_UP_APPROVED"
  }

  predicate LayoutOk(l: Layout) {
    CertOk(l) && TrustPartOk(l)
  }

  function CertLines(l: Layout, rest: seq<string>): seq<string>
    requires CertOk(l)
  {
    FieldLines(l.name, "CKA_LABEL")
    + (FieldLines(l.certType, "CKA_CERTIFICATE_TYPE")
       + (FieldLines(l.serial, "CKA_SERIAL_NUMBER") + (FieldLines(l.data, "CKA_VALUE") + rest)))
  }

  function TrustPartLines(l: Layout, rest: seq<string>): seq<string>
    requires TrustPartOk(l)
  {
    FieldLines(l.trustName, "CKA_LABEL")
    + (FieldLines(l.hash, "CKA_CERT_SHA1_HASH")
       + (FieldLines(l.trustSerial, "CKA_SERIAL_NUMBER") + (TrustLines(l.trusts, l.last) + rest)))
  }

  /** A record, printed before the lines that follow it. */
  function Print(l: Layout, rest: seq<string>): seq<string>
    requires LayoutOk(l)
  {
    FieldLines(l.kind, "CKA_CLASS") + CertLines(l, FieldLines(l.trustKind, "CKA_CLASS") + TrustPartLines(l, rest))
  }

  function CertOf(l: Layout): Cert {
    Cert(Value(l.name), Value(l.certType), Value(l.serial), Value(l.data),
         Value(l.trustName), Value(l.hash), Value(l.trustSerial), Trusted(l.trusts))
  }

  lemma NextCertOf(l: Layout, rest: seq<string>, c: Cert)
    requires CertOk(l)
    ensures NextCert(CertLines(l, rest), c)
      == Step(NoError, c.(certLabel := Value(l.name), certType := Value(l.certType),
                          certSerialNum := Value(l.serial), certData := Value(l.data)), rest)
  {
    hide ReadTokenValue, FieldLines, Value, IsGap, FieldOk;
    var l4 := FieldLines(l.data, CKA_VALUE) + rest;
    var l3 := FieldLines(l.serial, CKA_SERIAL_NUMBER) + l4;
    var l2 := FieldLines(l.certType, CKA_CERTIFICATE_TYPE) + l3;
    ReadOfField(l.name, CKA_LABEL, l2);
    ReadOfField(l.certType, CKA_CERTIFICATE_TYPE, l3);
    ReadOfField(l.serial, CKA_SERIAL_NUMBER, l4);
    ReadOfField(l.data, CKA_VALUE, rest);
  }

  lemma NextTrustOf(l: Layout, rest: seq<string>, c: Cert)
    requires TrustPartOk(l) && c.certLabel == Value(l.name)
    ensures NextTrust(TrustPartLines(l, rest), c)
      == Step(NoError, c.(trustLabel := Value(l.trustName), trustSha1Hash := Value(l.hash),
                          trustSerialNum := Value(l.trustSerial), trustTrustList := Trusted(l.trusts)), rest)
  {
    hide ReadTokenValue, FieldLines, Value, IsGap, FieldOk, TrustValues, TrustLines, Trusted, TrustOk;
    var l3 := TrustLines(l.trusts, l.last) + rest;
    var l2 := FieldLines(l.trustSerial, CKA_SERIAL_NUMBER) + l3;
    ReadOfField(l.trustName, CKA_LABEL, FieldLines(l.hash, CKA_CERT_SHA1_HASH) + l2);
    ReadOfField(l.hash, CKA_CERT_SHA1_HASH, l2);
    ReadOfField(l.trustSerial, CKA_SERIAL_NUMBER, l3);
    ReadOfTrusts(l.trusts, l.last, rest);
  }

  /** A printed record is read back whole, whatever the fields held before, up to its last line. */
  lemma NextOf(l: Layout, rest: seq<string>, c: Cert)
    requires LayoutOk(l)
    ensures Next(Print(l, rest), c) == Step(NoError, CertOf(l), rest)
  {
    hide ReadTokenValue, FieldLines, Value, IsGap, FieldOk;
    hide NextCert, NextTrust, CertLines, TrustPartLines, Trusted, TrustOk;
    var trust := FieldLines(l.trustKind, CKA_CLASS) + TrustPartLines(l, rest);
    ReadOfField(l.kind, CKA_CLASS, CertLines(l, trust));
    NextCertOf(l, trust, c);
    var half := NextCert(CertLines(l, trust), c).cert;
    ReadOfField(l.trustKind, CKA_CLASS, TrustPartLines(l, rest));
    NextTrustOf(l, rest, half);
  }

  // ---------- the whole list ----------

  lemma {:induction false} TokenShortens(lines: seq<string>, token: string)
    ensures |ReadTokenValue(lines, token).1| <= |lines|
    ensures lines != [] ==> |ReadTokenValue(lines, token).1| < |lines|
  {
    if lines != [] {
      TokenShortens(lines[1..], token);
      OctalShortens(lines[1..]);
    }
  }

  lemma {:induction false} OctalShortens(lines: seq<string>)
    ensures |ReadOctal(lines).1| <= |lines|
  {
    if lines != [] {
      OctalShortens(lines[1..]);
    }
  }

  lemma {:induction false} TrustsShorten(lines: seq<string>)
    ensures |TrustValues(lines).2| <= |lines|
  {
    if lines != [] {
      TrustsShorten(lines[1..]);
    }
  }

  /** Every call uses up at least a line while there is one, whatever the lines are. */
  lemma NextShortens(lines: seq<string>, c: Cert)
    ensures lines != [] ==> |Next(lines, c).rest| < |lines|
    ensures lines == [] ==> Next(lines, c) == Step(Eof, c, [])
  {
    hide ReadOctal, TrustValues, ReadTokenValue;
    forall ls: seq<string>, token: string
      ensures |ReadTokenValue(ls, token).1| <= |ls| && (ls != [] ==> |ReadTokenValue(ls, token).1| < |ls|)
    {
      TokenShortens(ls, token);
    }
    forall ls ensures |TrustValues(ls).2| <= |ls| {
      TrustsShorten(ls);
    }
    NoToken(CKA_CLASS);
  }

  lemma NoToken(token: string)
    ensures ReadTokenValue([], token) == (Token(Eof, ""), [])
  {
  }

  /** What the script reads: record after record while Next succeeds, and the code that ends it. */
  function Records(lines: seq<string>, c: Cert): (seq<Cert>, Code)
    decreases |lines|
  {
    var s := Next(lines, c);
    NextShortens(lines, c);
    if s.code == NoError then
      var (cs, code) := Records(s.rest, s.cert);
      ([s.cert] + cs, code)
    else ([], s.code)
  }

  /** The script as a whole: its loop uses the fields of every record, so it ends at once when the first
      success has not set them all. */
  function Script(lines: seq<string>): (seq<Cert>, Code) {
    if Next(lines, NOTHING).code == NoError && !Whole(lines) then ([], Crashed) else Records(lines, NOTHING)
  }

  function PrintAll(ls: seq<Layout>, tail: seq<string>): seq<string>
    requires forall l | l in ls :: LayoutOk(l)
  {
    if ls == [] then tail else Print(ls[0], PrintAll(ls[1..], tail))
  }

  function CertsOf(ls: seq<Layout>): seq<Cert> {
    if ls == [] then [] else [CertOf(ls[0])] + CertsOf(ls[1..])
  }

  lemma {:induction false} ReadOfAll(ls: seq<Layout>, tail: seq<string>, c: Cert)
    requires (forall l | l in ls :: LayoutOk(l)) && IsGap(tail, CKA_CLASS)
    ensures Records(PrintAll(ls, tail), c) == (CertsOf(ls), Eof)
    decreases |ls|
  {
    hide Print, CertOf, LayoutOk, IsGap;
    if ls == [] {
      SkipGap(tail, CKA_CLASS, []);
      assert tail + [] == tail;
    } else {
      hide Next, ReadTokenValue;
      NextOf(ls[0], PrintAll(ls[1..], tail), c);
      ReadOfAll(ls[1..], tail, CertOf(ls[0]));
    }
  }

  /** The file as a whole: a first object that is not a certificate is read over, and then the list
      comes back record for record, in order, and nothing after it. */
  lemma RoundTrip(header: Field, ls: seq<Layout>, tail: seq<string>)
    requires Ok(header, CKA_CLASS) && (forall l | l in ls :: LayoutOk(l)) && IsGap(tail, CKA_CLASS)
    ensures var lines := FieldLines(header, CKA_CLASS) + PrintAll(ls, tail);
      Script(ReadTokenValue(lines, CKA_CLASS).1) == (CertsOf(ls), Eof)
  {
    hide LayoutOk, Records, CertsOf, Ok, Whole, Next, ReadTokenValue, FieldLines, IsGap;
    assert FieldOk(header) && IsGap(header.gap, CKA_CLASS) by { OkParts(header, CKA_CLASS); }
    ReadOfField(header, CKA_CLASS, PrintAll(ls, tail));
    ReadOfAll(ls, tail, NOTHING);
    if ls != [] {
      FirstIsWhole(ls, tail);
    } else {
      NothingToRead(tail);
    }
  }

  lemma OkParts(f: Field, token: string)
    requires Ok(f, token)
    ensures FieldOk(f) && IsGap(f.gap, token)
  {
  }

  lemma NothingToRead(tail: seq<string>)
    requires IsGap(tail, CKA_CLASS)
    ensures Next(tail, NOTHING).code == Eof
  {
    SkipGap(tail, CKA_CLASS, []);
    assert tail + [] == tail;
  }

  lemma FirstIsWhole(ls: seq<Layout>, tail: seq<string>)
    requires ls != [] && forall l | l in ls :: LayoutOk(l)
    ensures Whole(PrintAll(ls, tail))
  {
    hide LayoutOk, Whole, Next, Print, CertOf;
    assert ls[0] in ls;
    var rest := PrintAll(ls[1..], tail);
    forall c ensures Next(Print(ls[0], rest), c) == Next(Print(ls[0], rest), NOTHING) {
      NextOf(ls[0], rest, c);
      NextOf(ls[0], rest, NOTHING);
    }
    NextOf(ls[0], rest, NOTHING);
    SuccessIsFreshExactly(Print(ls[0], rest), NOTHING);
  }

  // ---------- success that is not ----------

  const NOTHING := Cert("", "", "", "", "", "", "", [])

  /** A certificate, whole, with its trust and the same label in both. */
  predicate Whole(lines: seq<string>) {
    var (kind, l1) := ReadTokenValue(lines, CKA_CLASS);
    var half := NextCert(l1, NOTHING);
    var (trust, l2) := ReadTokenValue(half.rest, CKA_CLASS);
    && kind.text == CKO_CERTIFICATE && half.code == NoError && trust.text == CKO_NETSCAPE_TRUST
    && ReadTokenValue(l2, CKA_LABEL).0 == Token(NoError, half.cert.certLabel)
  }

  lemma HalfIsFresh(lines: seq<string>, c: Cert, d: Cert)
    ensures var h, k := NextCert(lines, c), NextCert(lines, d);
      && h.code == k.code && h.rest == k.rest
      && h.cert.trustSha1Hash == c.trustSha1Hash
      && (h.code == NoError ==>
            h.cert == k.cert.(trustLabel := c.trustLabel, trustSha1Hash := c.trustSha1Hash,
                              trustSerialNum := c.trustSerialNum, trustTrustList := c.trustTrustList))
  {
    hide ReadTokenValue;
  }

  /** Next succeeds, too, when the object it finds is not a certificate, when no trust object
      follows or when the labels differ, and then leaves fields of an earlier record: what it gives
      is all its own exactly when the record is whole. */
  lemma SuccessIsFreshExactly(lines: seq<string>, d: Cert)
    requires Next(lines, d).code == NoError
    ensures Whole(lines) <==> forall c :: Next(lines, c) == Next(lines, NOTHING)
  {
    hide ReadTokenValue, ReadTrustValues, NextCert;
    var (kind, l1) := ReadTokenValue(lines, CKA_CLASS);
    HalfIsFresh(l1, d, NOTHING);
    if Whole(lines) {
      forall c ensures Next(lines, c) == Next(lines, NOTHING) {
        HalfIsFresh(l1, c, NOTHING);
        HalfIsFresh(l1, c, d);
      }
    } else {
      var other := NOTHING.(trustSha1Hash := "other");
      HalfIsFresh(l1, NOTHING, NOTHING);
      HalfIsFresh(l1, other, NOTHING);
      assert Next(lines, other).cert.trustSha1Hash == "other";
      assert Next(lines, NOTHING).cert.trustSha1Hash == "";
    }
  }
}
