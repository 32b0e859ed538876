/** The script's record reader: an object over an open file that every call reads on from. */
module CertRecord {
  import opened Text
  import opened CertData
  import opened CertRoundTrip
  import opened Options

  class Record {
    var file: seq<string>     // the lines still to come
    var cert: Cert
    var trusted: bool         // whether the fields of a trust object have ever been set

    /** The first object is the list itself and is read over. */
    constructor (lines: seq<string>)
      ensures file == CertData.ReadTokenValue(lines, CKA_CLASS).1 && cert == NOTHING && !trusted
    {
      file, cert, trusted := lines, NOTHING, false;
      new;
      var ignored := ReadTokenValue(CKA_CLASS);
    }

    method ReadTokenValue(token: string) returns (value: Token)
      modifies this`file
      ensures (value, file) == CertData.ReadTokenValue(old(file), token)
    {
      while file != []
        invariant CertData.ReadTokenValue(file, token) == CertData.ReadTokenValue(old(file), token)
        decreases |file|
      {
        var line := file[0];
        file := file[1..];
        var fields := Split(line, ' ');
        if fields[0] == token {
          if |fields| == 1 {
            return Token(Crashed, "");
          }
          if fields[1] != MULTILINE {
            return Token(NoError, Join(fields[2..], ' '));
          }
          value := ReadOctalBlock();
          return;
        }
      }
      return Token(Eof, "");
    }

    method ReadOctalBlock() returns (value: Token)
      modifies this`file
      ensures (value, file) == ReadOctal(old(file))
    {
      var text := "";
      assert text + ReadOctal(file).0.text == ReadOctal(file).0.text;
      while file != []
        invariant Resumed(text, file) == ReadOctal(old(file))
        decreases |file|
      {
        ghost var before := file;
        var line := file[0];
        file := file[1..];
        if line == END {
          assert text + "" == text;
          return Token(NoError, text);
        }
        if line == "" {
          return Token(Eof, "");
        }
        var here := DecodeWordsOf(line);
        if here.None? {
          return Token(Crashed, "");
        }
        ResumedStep(text, before, here.value);
        text := text + here.value;
      }
      assert text + "" == text;
      return Token(NoError, text);
    }

    static method DecodeWordsOf(line: string) returns (text: Option<string>)
      ensures text == DecodeLine(line)
    {
      var words := Split(line, '\\');
      var value := "";
      assert words[0..] == words;
      DecodedNone(words);
      var i := 0;
      while i < |words|
        invariant 0 <= i <= |words|
        invariant DecodeWords(words) == DecodedAfter(value, words[i..])
      {
        DecodedStep(value, words[i..]);
        assert words[i..][1..] == words[i + 1..];
        if words[i] != "" {
          var n := Octal(words[i]);
          if n.None? || n.value > 255 {
            return None;
          }
          value := value + [n.value as char];
        }
        i := i + 1;
      }
      assert value + "" == value;
      return Some(value);
    }

    method ReadTrustValues() returns (code: Code, trustList: seq<string>)
      modifies this`file
      ensures (code, trustList, file) == CertData.ReadTrustValues(old(file))
    {
      if file == [] {
        return Crashed, [];
      }
      trustList := [];
      assert trustList + TrustValues(file).1 == TrustValues(file).1;
      while file != []
        invariant TrustsResumed(trustList, file) == TrustValues(old(file))
        decreases |file|
      {
        ghost var before := file;
        var fields := Split(file[0], ' ');
        file := file[1..];
        if fields[0] == STEP_UP {
          assert trustList + [] == trustList;
          return NoError, trustList;
        }
        if |fields| == 1 {
          return Crashed, [];
        }
        if fields[1] != CK_TRUST {
          return General, [];
        }
        if |fields| == 2 {
          return Crashed, [];
        }
        var here := if fields[2] == TRUSTED_DELEGATOR then [Strip(fields[0])] else [];
        TrustsResumedStep(trustList, before, here);
        trustList := trustList + here;
      }
      return General, [];
    }

    method NextCertificate() returns (code: Code)
      modifies this
      ensures trusted == old(trusted)
      ensures var s := NextCert(old(file), old(cert));
        code == s.code && (code != Crashed ==> cert == s.cert && file == s.rest)
    {
      hide CertData.ReadTokenValue;
      var value := ReadTokenValue(CKA_LABEL);
      cert := cert.(certLabel := if value.code == NoError then value.text else "");
      if value.code != NoError {
        return value.code;
      }
      value := ReadTokenValue(CKA_CERTIFICATE_TYPE);
      cert := cert.(certType := if value.code == NoError then value.text else "");
      if value.code != NoError {
        return value.code;
      }
      value := ReadTokenValue(CKA_SERIAL_NUMBER);
      cert := cert.(certSerialNum := if value.code == NoError then value.text else "");
      if value.code != NoError {
        return value.code;
      }
      value := ReadTokenValue(CKA_VALUE);
      cert := cert.(certData := value.text);
      return value.code;
    }

    method NextTrustDetails() returns (code: Code)
      modifies this
      ensures var s := NextTrust(old(file), old(cert));
        code == s.code && (code != Crashed ==> cert == s.cert && file == s.rest)
      ensures code == NoError ==>
        (trusted <==> old(trusted)
                      || CertData.ReadTokenValue(old(file), CKA_LABEL).0 == Token(NoError, old(cert).certLabel))
    {
      hide CertData.ReadTokenValue, CertData.ReadTrustValues;
      var value := ReadTokenValue(CKA_LABEL);
      cert := cert.(trustLabel := value.text);
      if value.code != NoError || cert.trustLabel != cert.certLabel {
        return value.code;
      }
      value := ReadTokenValue(CKA_CERT_SHA1_HASH);
      if value.code == Crashed {
        return Crashed;
      }
      cert := cert.(trustSha1Hash := value.text);
      trusted := true;
      value := ReadTokenValue(CKA_SERIAL_NUMBER);
      if value.code == Crashed {
        return Crashed;
      }
      cert := cert.(trustSerialNum := value.text);
      var trusts;
      code, trusts := ReadTrustValues();
      cert := cert.(trustTrustList := trusts);
    }

    method Next() returns (code: Code)
      modifies this
      ensures var s := CertData.Next(old(file), old(cert));
        code == s.code && (code != Crashed ==> cert == s.cert && file == s.rest)
      ensures code == NoError ==> (trusted <==> old(trusted) || Whole(old(file)))
    {
      hide CertData.ReadTokenValue, NextCert, NextTrust;
      HalfIsFresh(CertData.ReadTokenValue(file, CKA_CLASS).1, cert, NOTHING);
      var value := ReadTokenValue(CKA_CLASS);
      if value.code != NoError || value.text != CKO_CERTIFICATE {
        return value.code;
      }
      code := NextCertificate();
      if code != NoError {
        return;
      }
      value := ReadTokenValue(CKA_CLASS);
      if value.code != NoError || value.text != CKO_NETSCAPE_TRUST {
        return value.code;
      }
      code := NextTrustDetails();
    }
  }

  /** The characters of a line of which the given ones have been decoded already. */
  ghost function DecodedAfter(value: string, words: seq<string>): Option<string> {
    var rest := DecodeWords(words);
    if rest.None? then None else Some(value + rest.value)
  }

  lemma DecodedNone(words: seq<string>)
    ensures DecodedAfter("", words) == DecodeWords(words)
  {
    if DecodeWords(words).Some? {
      assert "" + DecodeWords(words).value == DecodeWords(words).value;
    }
  }

  lemma DecodedStep(value: string, words: seq<string>)
    requires words != []
    ensures words[0] == "" ==> DecodedAfter(value, words) == DecodedAfter(value, words[1..])
    ensures words[0] != "" ==>
      var n := Octal(words[0]);
      DecodedAfter(value, words)
      == if n.None? || n.value > 255 then None else DecodedAfter(value + [n.value as char], words[1..])
  {
    var n, rest := Octal(words[0]), DecodeWords(words[1..]);
    if words[0] != "" && n.Some? && n.value <= 255 && rest.Some? {
      assert value + ([n.value as char] + rest.value) == value + [n.value as char] + rest.value;
    }
  }

  /** A block of which the given text has been read already. */
  ghost function Resumed(text: string, lines: seq<string>): (Token, seq<string>) {
    var (rest, left) := ReadOctal(lines);
    var all := if rest.code == NoError then Token(NoError, text + rest.text) else rest;
    (all, left)
  }

  lemma ResumedStep(text: string, lines: seq<string>, here: string)
    requires lines != [] && lines[0] != END && lines[0] != "" && DecodeLine(lines[0]) == Some(here)
    ensures Resumed(text + here, lines[1..]) == Resumed(text, lines)
  {
    var rest := ReadOctal(lines[1..]).0;
    assert text + (here + rest.text) == text + here + rest.text;
  }

  ghost function TrustsResumed(trusts: seq<string>, lines: seq<string>): (Code, seq<string>, seq<string>) {
    var (code, rest, left) := TrustValues(lines);
    (code, if code == NoError then trusts + rest else [], left)
  }

  lemma TrustsResumedStep(trusts: seq<string>, lines: seq<string>, here: seq<string>)
    requires lines != []
    requires var fields := Split(lines[0], ' ');
      && fields[0] != STEP_UP && |fields| > 2 && fields[1] == CK_TRUST
      && here == if fields[2] == TRUSTED_DELEGATOR then [Strip(fields[0])] else []
    ensures TrustsResumed(trusts + here, lines[1..]) == TrustsResumed(trusts, lines)
  {
    var rest := TrustValues(lines[1..]).1;
    assert trusts + (here + rest) == trusts + here + rest;
  }

  /** The script's main loop: every record that is there, in the order of the file, until the end. The
      fields of a record are used at once, which stops the script when they have never been set. */
  method ReadAll(lines: seq<string>) returns (certs: seq<Cert>, code: Code)
    ensures (certs, code) == Script(CertData.ReadTokenValue(lines, CKA_CLASS).1)
  {
    hide CertData.Next, CertData.ReadTokenValue, Whole, Records;
    var record := new Record(lines);
    certs := [];
    ghost var start := record.file;
    ghost var before, was := start, NOTHING;
    code := record.Next();
    assert certs + Records(start, NOTHING).0 == Records(start, NOTHING).0;
    while code == NoError
      invariant code == CertData.Next(before, was).code
      invariant code == NoError ==> Step(code, record.cert, record.file) == CertData.Next(before, was)
      invariant Records(start, NOTHING) == (certs + Records(before, was).0, Records(before, was).1)
      invariant (before == start && was == NOTHING) || Whole(start)
      invariant code == NoError ==> (record.trusted <==> Whole(start) || Whole(before))
      decreases |before|, code == NoError
    {
      if !record.trusted {
        return [], Crashed;
      }
      RecordsStep(before, was);
      NextShortens(before, was);
      ghost var rest := Records(record.file, record.cert).0;
      assert certs + ([record.cert] + rest) == certs + [record.cert] + rest;
      certs := certs + [record.cert];
      before, was := record.file, record.cert;
      code := record.Next();
    }
    RecordsStep(before, was);
    assert certs + [] == certs;
  }

  lemma RecordsStep(lines: seq<string>, c: Cert)
    ensures var s := CertData.Next(lines, c);
      if s.code == NoError then
        var (cs, code) := Records(s.rest, s.cert);
        Records(lines, c) == ([s.cert] + cs, code)
      else Records(lines, c) == ([], s.code)
  {
    hide CertData.Next;
  }
}
