/** Splitting and joining lines of text. */
module Text {

  function Split(s: string, sep: char): (fields: seq<string>)
    ensures |fields| > 0
    ensures forall f | f in fields :: sep !in f
  {
    if s == "" then [""]
    else
      var rest := Split(s[1..], sep);
      if s[0] == sep then [""] + rest else [[s[0]] + rest[0]] + rest[1..]
  }

  function Join(fields: seq<string>, sep: char): string {
    if fields == [] then ""
    else if |fields| == 1 then fields[0]
    else fields[0] + [sep] + Join(fields[1..], sep)
  }

  lemma JoinEmpty(rest: seq<string>, sep: char)
    requires rest != []
    ensures Join([""] + rest, sep) == [sep] + Join(rest, sep)
  {
    assert ([""] + rest)[1..] == rest;
  }

  lemma JoinLonger(c: char, rest: seq<string>, sep: char)
    requires rest != []
    ensures Join([[c] + rest[0]] + rest[1..], sep) == [c] + Join(rest, sep)
  {
    var fields := [[c] + rest[0]] + rest[1..];
    assert fields[1..] == rest[1..];
    if |rest| > 1 {
      var others := Join(rest[1..], sep);
      assert [c] + rest[0] + [sep] + others == [c] + (rest[0] + [sep] + others);
    }
  }

  lemma {:induction false} JoinSplit(s: string, sep: char)
    ensures Join(Split(s, sep), sep) == s
  {
    if s != "" {
      JoinSplit(s[1..], sep);
      var rest := Split(s[1..], sep);
      JoinEmpty(rest, sep);
      JoinLonger(s[0], rest, sep);
      hide Join;
      assert s == [s[0]] + s[1..];
    }
  }

  lemma {:induction false} SplitPlain(s: string, sep: char)
    requires sep !in s
    ensures Split(s, sep) == [s]
  {
    if s != "" {
      SplitPlain(s[1..], sep);
      assert [s[0]] + s[1..] == s;
    }
  }

  lemma {:induction false} SplitAt(first: string, sep: char, rest: string)
    requires sep !in first
    ensures Split(first + [sep] + rest, sep) == [first] + Split(rest, sep)
  {
    var s := first + [sep] + rest;
    if first == "" {
      assert s[1..] == rest;
    } else {
      SplitAt(first[1..], sep, rest);
      assert s[1..] == first[1..] + [sep] + rest;
      assert [first[0]] + first[1..] == first;
    }
  }

  /** Splitting inverts joining, when no field holds the separator. */
  lemma {:induction false} SplitJoin(fields: seq<string>, sep: char)
    requires fields != [] && forall f | f in fields :: sep !in f
    ensures Split(Join(fields, sep), sep) == fields
  {
    if |fields| == 1 {
      SplitPlain(fields[0], sep);
    } else {
      SplitJoin(fields[1..], sep);
      SplitAt(fields[0], sep, Join(fields[1..], sep));
      assert [fields[0]] + fields[1..] == fields;
    }
  }

  predicate IsSpace(c: char) {
    c == ' ' || 9 as char <= c <= 13 as char
  }

  function StripLeft(s: string): string {
    if s != "" && IsSpace(s[0]) then StripLeft(s[1..]) else s
  }

  function StripRight(s: string): string {
    if s != "" && IsSpace(s[|s|-1]) then StripRight(s[..|s|-1]) else s
  }

  function Strip(s: string): string {
    StripRight(StripLeft(s))
  }

  const BLANKS := " \t\n\r\U{B}\U{C}"

  predicate Trimmed(s: string) {
    s == "" || (s[0] !in BLANKS && s[|s|-1] !in BLANKS)
  }

  predicate Blank(s: string) {
    forall c | c in s :: c in BLANKS
  }

  lemma SpacesAreBlanks()
    ensures forall c :: IsSpace(c) <==> c in BLANKS
  {
    forall c ensures IsSpace(c) <==> c in BLANKS {
      assert [9 as char, 10 as char, 11 as char, 12 as char, 13 as char] == "\t\n\U{B}\U{C}\r";
    }
  }

  lemma {:induction false} StripLeftBlank(a: string, s: string)
    requires Blank(a)
    ensures StripLeft(a + s) == StripLeft(s)
  {
    SpacesAreBlanks();
    hide IsSpace, BLANKS;
    if a == "" {
      assert a + s == s;
    } else {
      assert (a + s)[1..] == a[1..] + s && a[0] in a;
      StripLeftBlank(a[1..], s);
    }
  }

  lemma {:induction false} StripRightBlank(s: string, b: string)
    requires Blank(b)
    ensures StripRight(s + b) == StripRight(s)
  {
    SpacesAreBlanks();
    hide IsSpace, BLANKS;
    if b == "" {
      assert s + b == s;
    } else {
      assert (s + b)[..|s + b|-1] == s + b[..|b|-1] && b[|b|-1] in b;
      StripRightBlank(s, b[..|b|-1]);
    }
  }

  /** Blanks around a text that has none at its ends are what stripping takes away. */
  lemma StripAround(a: string, text: string, b: string)
    requires Blank(a) && Blank(b) && Trimmed(text)
    ensures Strip(a + text + b) == text
  {
    SpacesAreBlanks();
    hide IsSpace, BLANKS;
    assert a + text + b == a + (text + b);
    StripLeftBlank(a, text + b);
    if text == "" {
      assert text + b == b && b + "" == b;
      StripLeftBlank(b, "");
    } else {
      assert (text + b)[0] == text[0];
      assert StripLeft(text + b) == text + b;
      StripRightBlank(text, b);
    }
  }

  lemma {:induction false} StripLeftParts(s: string) returns (a: string)
    ensures Blank(a) && s == a + StripLeft(s)
    ensures StripLeft(s) == "" || StripLeft(s)[0] !in BLANKS
  {
    SpacesAreBlanks();
    hide IsSpace, BLANKS;
    if s != "" && IsSpace(s[0]) {
      a := StripLeftParts(s[1..]);
      a := [s[0]] + a;
      assert s == [s[0]] + s[1..];
    } else {
      a := "";
    }
  }

  lemma {:induction false} StripRightParts(s: string) returns (b: string)
    ensures Blank(b) && s == StripRight(s) + b
    ensures StripRight(s) == "" || StripRight(s)[|StripRight(s)|-1] !in BLANKS
  {
    SpacesAreBlanks();
    hide IsSpace, BLANKS;
    if s != "" && IsSpace(s[|s|-1]) {
      var front := s[..|s|-1];
      assert StripRight(s) == StripRight(front);
      hide StripRight;
      b := StripRightParts(front);
      assert s == StripRight(front) + b + [s[|s|-1]];
      b := b + [s[|s|-1]];
      assert s == StripRight(front) + b;
    } else {
      b := "";
    }
  }

  /** Stripping takes away blanks at both ends, and all of them. */
  lemma StripParts(s: string) returns (a: string, b: string)
    ensures Blank(a) && Blank(b) && s == a + Strip(s) + b && Trimmed(Strip(s))
  {
    SpacesAreBlanks();
    hide StripLeft, StripRight, IsSpace, BLANKS;
    a := StripLeftParts(s);
    b := StripRightParts(StripLeft(s));
    assert StripLeft(s) == Strip(s) + b;
    assert s == a + (Strip(s) + b);
    if Strip(s) != "" {
      assert StripLeft(s)[0] == Strip(s)[0];
    }
  }
}
