/** The certificate list: what reading its lines comes to, field by field. */
module CertData {
  import opened Text
  import opened Options

  datatype Code = NoError | Eof | General | Crashed

  /** What a field reads as; the text is empty unless the code is NoError. */
  datatype Token = Token(code: Code, text: string)

  const CKA_CLASS := "CKA_CLASS"
  const CKA_LABEL := "CKA_LABEL"
  const CKA_CERTIFICATE_TYPE := "CKA_CERTIFICATE_TYPE"
  const CKA_SERIAL_NUMBER := "CKA_SERIAL_NUMBER"
  const CKA_VALUE := "CKA_VALUE"
  const CKA_CERT_SHA1_HASH := "CKA_CERT_SHA1_HASH"
  const CKO_CERTIFICATE := "CKO_CERTIFICATE"
  const CKO_NETSCAPE_TRUST := "CKO_NETSCAPE_TRUST"
  const CK_TRUST := "CK_TRUST"
  const TRUSTED_DELEGATOR := "CKT_NETSCAPE_TRUSTED_DELEGATOR"
  const STEP_UP := "CKA_TRUST_STEP_UP_APPROVED"
  const MULTILINE := "MULTILINE_OCTAL"
  const END := "END"

  // ---------- octal blocks ----------

  predicate OctalDigit(c: char) {
    '0' <= c <= '7'
  }

  /** A word of octal digits as a number; anything else stops the script. */
  function Octal(word: string): Option<nat> {
    if word == "" then None
    else if !OctalDigit(word[|word|-1]) then None
    else
      var low := (word[|word|-1] as int - '0' as int) as nat;
      if |word| == 1 then Some(low)
      else
        var high := Octal(word[..|word|-1]);
        if high.None? then None else Some(high.value * 8 + low)
  }

  /** The characters of a line's words, empty ones skipped; a number over 255 is no character. */
  function DecodeWords(words: seq<string>): Option<string> {
    if words == [] then Some("")
    else
      var rest := DecodeWords(words[1..]);
      if words[0] == "" then rest
      else
        var n := Octal(words[0]);
        if n.None? || n.value > 255 || rest.None? then None else Some([n.value as char] + rest.value)
  }

  function DecodeLine(line: string): Option<string> {
    DecodeWords(Split(line, '\\'))
  }

  /** A block up to its END, or to the end of the file; an empty line breaks it off. */
  function ReadOctal(lines: seq<string>): (Token, seq<string>) {
    if lines == [] then (Token(NoError, ""), [])
    else if lines[0] == END then (Token(NoError, ""), lines[1..])
    else if lines[0] == "" then (Token(Eof, ""), lines[1..])
    else
      var here := DecodeLine(lines[0]);
      if here.None? then (Token(Crashed, ""), lines[1..])
      else
        var (rest, left) := ReadOctal(lines[1..]);
        var all := if rest.code == NoError then Token(NoError, here.value + rest.text) else rest;
        (all, left)
  }

  // ---------- fields ----------

  function First(line: string): string {
    Split(line, ' ')[0]
  }

  /** The next line whose first word is the token, and its value. */
  function ReadTokenValue(lines: seq<string>, token: string): (r: (Token, seq<string>)) {
    if lines == [] then (Token(Eof, ""), [])
    else
      var fields := Split(lines[0], ' ');
      if fields[0] != token then ReadTokenValue(lines[1..], token)
      else if |fields| == 1 then (Token(Crashed, ""), lines[1..])
      else if fields[1] != MULTILINE then (Token(NoError, Join(fields[2..], ' ')), lines[1..])
      else ReadOctal(lines[1..])
  }

  /** The trust settings up to the line that ends them: the trusted ones, by name. */
  function ReadTrustValues(lines: seq<string>): (Code, seq<string>, seq<string>) {
    if lines == [] then (Crashed, [], []) else TrustValues(lines)
  }

  function TrustValues(lines: seq<string>): (Code, seq<string>, seq<string>) {
    if lines == [] then (General, [], [])
    else
      var fields := Split(lines[0], ' ');
      if fields[0] == STEP_UP then (NoError, [], lines[1..])
      else if |fields| == 1 then (Crashed, [], lines[1..])
      else if fields[1] != CK_TRUST then (General, [], lines[1..])
      else if |fields| == 2 then (Crashed, [], lines[1..])
      else
        var (code, rest, left) := TrustValues(lines[1..]);
        var here := if fields[2] == TRUSTED_DELEGATOR then [Strip(fields[0])] else [];
        (code, if code == NoError then here + rest else [], left)
  }

  // ---------- records ----------

  datatype Cert = Cert(
    certLabel: string, certType: string, certSerialNum: string, certData: string,
    trustLabel: string, trustSha1Hash: string, trustSerialNum: string, trustTrustList: seq<string>)

  /** What a call of Next comes to: its code, the fields as it leaves them and the lines left. After
      a crash there are no fields to speak of. */
  datatype Step = Step(code: Code, cert: Cert, rest: seq<string>)

  /** The certificate half. */
  function NextCert(lines: seq<string>, c: Cert): Step {
    var (name, l1) := ReadTokenValue(lines, CKA_LABEL);
    if name.code != NoError then Step(name.code, c.(certLabel := ""), l1)
    else
      var c1 := c.(certLabel := name.text);
      var (kind, l2) := ReadTokenValue(l1, CKA_CERTIFICATE_TYPE);
      if kind.code != NoError then Step(kind.code, c1.(certType := ""), l2)
      else
        var c2 := c1.(certType := kind.text);
        var (serial, l3) := ReadTokenValue(l2, CKA_SERIAL_NUMBER);
        if serial.code != NoError then Step(serial.code, c2.(certSerialNum := ""), l3)
        else
          var c3 := c2.(certSerialNum := serial.text);
          var (data, l4) := ReadTokenValue(l3, CKA_VALUE);
          Step(data.code, c3.(certData := data.text), l4)
  }

  /** The trust half, after its class: a hash or serial number that is missing does not stop it, and
      a serial number that differs is only warned about; a label that differs ends it quietly. */
  function NextTrust(lines: seq<string>, c: Cert): Step {
    var (name, l1) := ReadTokenValue(lines, CKA_LABEL);
    var c1 := c.(trustLabel := name.text);
    if name.code != NoError || name.text != c.certLabel then Step(name.code, c1, l1)
    else
      var (hash, l2) := ReadTokenValue(l1, CKA_CERT_SHA1_HASH);
      if hash.code == Crashed then Step(Crashed, c1, l2)
      else
        var (serial, l3) := ReadTokenValue(l2, CKA_SERIAL_NUMBER);
        if serial.code == Crashed then Step(Crashed, c1, l3)
        else
          var (code, trusts, l4) := ReadTrustValues(l3);
          Step(code, c1.(trustSha1Hash := hash.text, trustSerialNum := serial.text, trustTrustList := trusts), l4)
  }

  function Next(lines: seq<string>, c: Cert): Step {
    var (kind, l1) := ReadTokenValue(lines, CKA_CLASS);
    if kind.code != NoError || kind.text != CKO_CERTIFICATE then Step(kind.code, c, l1)
    else
      var half := NextCert(l1, c);
      if half.code != NoError then half
      else
        var (trust, l2) := ReadTokenValue(half.rest, CKA_CLASS);
        if trust.code != NoError || trust.text != CKO_NETSCAPE_TRUST then Step(trust.code, half.cert, l2)
        else NextTrust(l2, half.cert)
  }
}
