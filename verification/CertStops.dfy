/** Where the certificate reader stops, line by line, and with which code: for any lines at all. */
module CertStops {
  import opened Text
  import opened CertData
  import opened CertRoundTrip

  // ---------- octal ----------

  lemma {:induction false} OctalExactly(word: string)
    ensures Octal(word).Some? <==> word != "" && forall c | c in word :: c in "01234567"
  {
    if word != "" {
      var last, front := word[|word|-1], word[..|word|-1];
      assert word == front + [last];
      assert last in "01234567" <==> OctalDigit(last);
      if |word| > 1 {
        OctalExactly(front);
      } else {
        assert front == "";
      }
      hide OctalDigit;
      assert forall c :: c in word <==> c in front || c == last;
    }
  }

  /** A word that the script turns into nothing or into a character. */
  predicate Readable(word: string) {
    word == "" || ((forall c | c in word :: c in "01234567") && Octal(word).Some? && Octal(word).value < 256)
  }

  lemma {:induction false} WordsExactly(words: seq<string>)
    ensures DecodeWords(words).Some? <==> forall w | w in words :: Readable(w)
  {
    hide Readable;
    if words != [] {
      WordsExactly(words[1..]);
      WordExactly(words[0]);
      assert forall w :: w in words <==> w == words[0] || w in words[1..];
    }
  }

  lemma WordExactly(word: string)
    ensures Readable(word) <==> word == "" || (Octal(word).Some? && Octal(word).value <= 255)
  {
    hide Octal;
    OctalExactly(word);
  }

  /** A line of a block: not its end, not one that breaks it off, and with readable words only. */
  predicate BlockLine(line: string) {
    line != "END" && line != "" && forall w | w in Split(line, '\\') :: Readable(w)
  }

  function AllDecoded(lines: seq<string>): string
    requires forall l | l in lines :: BlockLine(l)
  {
    if lines == [] then ""
    else
      assert BlockLine(lines[0]);
      WordsExactly(Split(lines[0], '\\'));
      DecodeLine(lines[0]).value + AllDecoded(lines[1..])
  }

  /** Reading a block stops at the first line that is not one of a block. At END, or with no such line,
      it has the characters of all lines before; an empty line reads as the end of the file, with nothing;
      any other stops the script. It uses up that line and no more. */
  lemma {:induction false} BlockStops(lines: seq<string>, k: nat)
    requires k <= |lines| && (forall l | l in lines[..k] :: BlockLine(l)) && (k < |lines| ==> !BlockLine(lines[k]))
    ensures ReadOctal(lines) ==
      if k == |lines| then (Token(NoError, AllDecoded(lines[..k])), [])
      else if lines[k] == "END" then (Token(NoError, AllDecoded(lines[..k])), lines[k + 1..])
      else (Token(if lines[k] == "" then Eof else Crashed, ""), lines[k + 1..])
    decreases |lines|
  {
    hide Readable;
    if lines != [] {
      WordsExactly(Split(lines[0], '\\'));
      if k > 0 {
        assert lines[..k] == [lines[0]] + lines[1..][..k - 1];
        assert lines[0] in lines[..k];
        BlockStops(lines[1..], k - 1);
      }
    }
  }

  // ---------- fields ----------

  /** Looking for a token stops at the first line that begins with it, if there is one. A line with nothing
      else stops the script; otherwise the value is the text after the second word, or a block. */
  lemma TokenStops(lines: seq<string>, token: string, k: nat)
    requires k <= |lines| && (forall l | l in lines[..k] :: First(l) != token)
    requires k < |lines| ==> First(lines[k]) == token
    ensures ReadTokenValue(lines, token) ==
      if k == |lines| then (Token(Eof, ""), [])
      else
        var fields := Split(lines[k], ' ');
        if |fields| == 1 then (Token(Crashed, ""), lines[k + 1..])
        else if fields[1] == "MULTILINE_OCTAL" then ReadOctal(lines[k + 1..])
        else (Token(NoError, Join(fields[2..], ' ')), lines[k + 1..])
  {
    hide Split, ReadTokenValue, Join, ReadOctal;
    assert lines == lines[..k] + lines[k..];
    SkipGap(lines[..k], token, lines[k..]);
    if k < |lines| {
      assert lines[k..] == [lines[k]] + lines[k + 1..];
      ReadOfLine(lines[k], token, lines[k + 1..]);
    } else {
      NoToken(token);
    }
  }

  // ---------- trust settings ----------

  predicate SettingLine(line: string) {
    var fields := Split(line, ' ');
    |fields| >= 3 && fields[0] != "CKA_TRUST_STEP_UP_APPROVED" && fields[1] == "CK_TRUST"
  }

  function TrustedNames(lines: seq<string>): seq<string>
    requires forall l | l in lines :: SettingLine(l)
  {
    if lines == [] then []
    else
      assert SettingLine(lines[0]);
      var fields := Split(lines[0], ' ');
      (if fields[2] == "CKT_NETSCAPE_TRUSTED_DELEGATOR" then [Strip(fields[0])] else []) + TrustedNames(lines[1..])
  }

  /** Reading the settings stops at the first line that is not one. Only the closing line gives the names;
      a line too short to tell stops the script; anything else, or none, is an error. */
  lemma {:induction false} TrustsStop(lines: seq<string>, k: nat)
    requires k <= |lines| && (forall l | l in lines[..k] :: SettingLine(l))
    requires k < |lines| ==> !SettingLine(lines[k])
    ensures TrustValues(lines) ==
      if k == |lines| then (General, [], [])
      else
        var fields := Split(lines[k], ' ');
        if fields[0] == "CKA_TRUST_STEP_UP_APPROVED" then (NoError, TrustedNames(lines[..k]), lines[k + 1..])
        else if |fields| == 1 || (|fields| == 2 && fields[1] == "CK_TRUST") then (Crashed, [], lines[k + 1..])
        else (General, [], lines[k + 1..])
    decreases |lines|
  {
    hide Split, Strip;
    if lines != [] && k > 0 {
      assert lines[..k] == [lines[0]] + lines[1..][..k - 1];
      assert lines[0] in lines[..k];
      TrustsStop(lines[1..], k - 1);
    }
  }
}
