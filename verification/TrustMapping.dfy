/** Which applications trust a certificate: the mapping file, and its join with a trust list. */
module TrustMapping {
  import opened Text
  import opened Options

  datatype Row = Row(mozTrust: string, appUid: string, appName: string)

  // ---------- the mapping file ----------

  predicate Ignored(line: string) {
    line == "" || line[0] == '#'
  }

  function RowsFrom(trust: string, fields: seq<string>): seq<Row>
    requires |fields| % 2 == 0
  {
    if fields == [] then []
    else [Row(trust, Strip(fields[0]), Strip(fields[1]))] + RowsFrom(trust, fields[2..])
  }

  function LineRows(line: string): Option<seq<Row>> {
    if Ignored(line) then Some([])
    else
      var fields := Split(line, ',');
      if |fields| % 2 != 1 then None else Some(RowsFrom(Strip(fields[0]), fields[1..]))
  }

  /** A line with a name or an identifier missing stops the script: reporting it goes wrong itself. */
  function Mapping(lines: seq<string>): Option<seq<Row>> {
    if lines == [] then Some([])
    else
      var here, rest := LineRows(lines[0]), Mapping(lines[1..]);
      if here.None? || rest.None? then None else Some(here.value + rest.value)
  }

  ghost function MappingAfter(rows: seq<Row>, lines: seq<string>): Option<seq<Row>> {
    var rest := Mapping(lines);
    if rest.None? then None else Some(rows + rest.value)
  }

  lemma MappingStep(rows: seq<Row>, lines: seq<string>)
    requires lines != []
    ensures MappingAfter(rows, lines)
      == var here := LineRows(lines[0]); if here.None? then None else MappingAfter(rows + here.value, lines[1..])
  {
    var here, rest := LineRows(lines[0]), Mapping(lines[1..]);
    if here.Some? && rest.Some? {
      assert rows + (here.value + rest.value) == rows + here.value + rest.value;
    }
  }

  method ReadTrustMapping(lines: seq<string>) returns (trustMapping: Option<seq<Row>>)
    ensures trustMapping == Mapping(lines)
  {
    hide LineRows, Mapping;
    var rows: seq<Row> := [];
    assert MappingAfter(rows, lines[0..]) == Mapping(lines) by {
      assert lines[0..] == lines;
      if Mapping(lines).Some? { assert [] + Mapping(lines).value == Mapping(lines).value; }
    }
    var i := 0;
    while i < |lines|
      invariant 0 <= i <= |lines|
      invariant MappingAfter(rows, lines[i..]) == Mapping(lines)
    {
      MappingStep(rows, lines[i..]);
      assert lines[i..][1..] == lines[i + 1..];
      var here := ReadLine(lines[i]);
      if here.None? {
        return None;
      }
      rows := rows + here.value;
      i := i + 1;
    }
    assert lines[i..] == [];
    MappingOfNone();
    assert rows + [] == rows;
    return Some(rows);
  }

  lemma MappingOfNone()
    ensures Mapping([]) == Some([])
  {
  }

  lemma RowsJoin(mapping: seq<Row>, trust: string, fields: seq<string>)
    requires |fields| % 2 == 0 && mapping == []
    ensures mapping + RowsFrom(trust, fields) == RowsFrom(trust, fields)
  {
  }

  lemma RowsStep(mapping: seq<Row>, trust: string, fields: seq<string>, index: nat)
    requires index + 1 < |fields| && (|fields| - index) % 2 == 0
    ensures var row := Row(trust, Strip(fields[index]), Strip(fields[index + 1]));
      mapping + RowsFrom(trust, fields[index..]) == mapping + [row] + RowsFrom(trust, fields[index + 2..])
  {
    hide Strip;
    var row := Row(trust, Strip(fields[index]), Strip(fields[index + 1]));
    assert fields[index..][2..] == fields[index + 2..];
    var rest := RowsFrom(trust, fields[index + 2..]);
    assert RowsFrom(trust, fields[index..]) == [row] + rest;
    assert mapping + ([row] + rest) == mapping + [row] + rest;
  }

  method ReadRows(mozTrust: string, fields: seq<string>) returns (mapping: seq<Row>)
    requires |fields| % 2 == 1
    ensures mapping == RowsFrom(mozTrust, fields[1..])
  {
    hide RowsFrom, Strip;
    mapping := [];
    var index := 1;
    RowsJoin(mapping, mozTrust, fields[1..]);
    while index < |fields|
      invariant 1 <= index <= |fields| && index % 2 == 1
      invariant mapping + RowsFrom(mozTrust, fields[index..]) == RowsFrom(mozTrust, fields[1..])
    {
      RowsStep(mapping, mozTrust, fields, index);
      mapping := mapping + [Row(mozTrust, Strip(fields[index]), Strip(fields[index + 1]))];
      index := index + 2;
    }
    RowsEnd(mapping, mozTrust);
    assert fields[index..] == [];
  }

  lemma RowsEnd(mapping: seq<Row>, trust: string)
    ensures mapping + RowsFrom(trust, []) == mapping
  {
  }

  method ReadLine(line: string) returns (rows: Option<seq<Row>>)
    ensures rows == LineRows(line)
  {
    hide Split, Strip, RowsFrom;
    if line == "" || line[0] == '#' {
      return Some([]);
    }
    var fields := Split(line, ',');
    if |fields| % 2 != 1 {
      return None;
    }
    var mapping := ReadRows(Strip(fields[0]), fields);
    return Some(mapping);
  }

  /** A text with blanks on both sides. */
  datatype Padded = Padded(before: string, text: string, after: string)

  /** A line that sets something: one trust setting and the applications it is for, by identifier and
      name. Lines that are empty or begin with # set nothing. */
  datatype Line = Empty | Remark(text: string) | Setting(mozTrust: Padded, apps: seq<(Padded, Padded)>)

  function Written(p: Padded): string {
    p.before + p.text + p.after
  }

  predicate PaddedOk(p: Padded) {
    Blank(p.before) && Blank(p.after) && Trimmed(p.text) && ',' !in p.text
  }

  predicate LineOk(l: Line) {
    l.Setting? ==>
      && PaddedOk(l.mozTrust) && l.mozTrust.text != "" && (l.mozTrust.before == "" ==> l.mozTrust.text[0] != '#')
      && forall a | a in l.apps :: PaddedOk(a.0) && PaddedOk(a.1)
  }

  function SettingRows(mozTrust: string, apps: seq<(Padded, Padded)>): seq<Row> {
    seq(|apps|, i requires 0 <= i < |apps| => Row(mozTrust, apps[i].0.text, apps[i].1.text))
  }

  function AppFields(apps: seq<(Padded, Padded)>): (fields: seq<string>)
    ensures |fields| == 2 * |apps|
  {
    if apps == [] then [] else [Written(apps[0].0), Written(apps[0].1)] + AppFields(apps[1..])
  }

  function LineText(l: Line): string {
    match l
    case Empty => ""
    case Remark(text) => "#" + text
    case Setting(mozTrust, apps) => Join([Written(mozTrust)] + AppFields(apps), ',')
  }

  function RowsOf(l: Line): seq<Row> {
    if l.Setting? then SettingRows(l.mozTrust.text, l.apps) else []
  }

  lemma NoComma(p: Padded)
    requires PaddedOk(p)
    ensures ',' !in Written(p) && Strip(Written(p)) == p.text
  {
    StripAround(p.before, p.text, p.after);
    hide Strip;
  }

  lemma {:induction false} RowsOfFields(trust: string, apps: seq<(Padded, Padded)>)
    requires forall a | a in apps :: PaddedOk(a.0) && PaddedOk(a.1)
    ensures RowsFrom(trust, AppFields(apps)) == SettingRows(trust, apps)
    ensures forall f | f in AppFields(apps) :: ',' !in f
  {
    hide PaddedOk, Written, Strip;
    if apps != [] {
      assert apps[0] in apps;
      RowsOfFields(trust, apps[1..]);
      assert AppFields(apps)[2..] == AppFields(apps[1..]);
      NoComma(apps[0].0);
      NoComma(apps[0].1);
    }
  }

  lemma SettingText(mozTrust: Padded, apps: seq<(Padded, Padded)>)
    requires LineOk(Setting(mozTrust, apps))
    ensures !Ignored(LineText(Setting(mozTrust, apps)))
  {
    var w, t := Written(mozTrust), LineText(Setting(mozTrust, apps));
    assert |w| > 0 && w[0] == if mozTrust.before == "" then mozTrust.text[0] else mozTrust.before[0];
    assert t[0] == w[0];
    assert mozTrust.before != "" ==> mozTrust.before[0] in mozTrust.before;
  }

  lemma RowsOfSetting(mozTrust: Padded, apps: seq<(Padded, Padded)>)
    requires LineOk(Setting(mozTrust, apps))
    ensures LineRows(LineText(Setting(mozTrust, apps))) == Some(SettingRows(mozTrust.text, apps))
  {
    hide Split, Join, Strip, Written, PaddedOk, Ignored, AppFields, RowsFrom, SettingRows;
    SettingText(mozTrust, apps);
    NoComma(mozTrust);
    RowsOfFields(mozTrust.text, apps);
    hide LineOk;
    var fields := [Written(mozTrust)] + AppFields(apps);
    SplitJoin(fields, ',');
    assert fields[0] == Written(mozTrust) && fields[1..] == AppFields(apps);
  }

  lemma RowsOfLine(l: Line)
    requires LineOk(l)
    ensures LineRows(LineText(l)) == Some(RowsOf(l))
  {
    match l
    case Empty =>
    case Remark(text) =>
    case Setting(mozTrust, apps) =>
      hide LineRows, LineText, LineOk, SettingRows;
      RowsOfSetting(mozTrust, apps);
  }

  function AllRows(ls: seq<Line>): seq<Row> {
    if ls == [] then [] else RowsOf(ls[0]) + AllRows(ls[1..])
  }

  function Texts(ls: seq<Line>): seq<string> {
    if ls == [] then [] else [LineText(ls[0])] + Texts(ls[1..])
  }

  /** Reading a written mapping file, with remarks, empty lines and blanks around every field, gives back
      all its rows in order. */
  lemma {:induction false} MappingRoundTrip(ls: seq<Line>)
    requires forall l | l in ls :: LineOk(l)
    ensures Mapping(Texts(ls)) == Some(AllRows(ls))
  {
    hide LineRows, LineText, RowsOf, LineOk;
    if ls != [] {
      assert ls[0] in ls;
      RowsOfLine(ls[0]);
      MappingRoundTrip(ls[1..]);
      assert Texts(ls)[1..] == Texts(ls[1..]);
    }
  }

  /** The file is read exactly when every line that counts has a field for the trust setting and two
      for each application, an odd number. */
  lemma {:induction false} MappingReadExactly(lines: seq<string>)
    ensures Mapping(lines).Some? <==> forall l | l in lines && !Ignored(l) :: |Split(l, ',')| % 2 == 1
  {
    if lines != [] {
      MappingReadExactly(lines[1..]);
      assert forall l :: l in lines <==> l == lines[0] || l in lines[1..];
    }
  }

  // ---------- the application list ----------

  function NamesFor(trust: string, mapping: seq<Row>): seq<string> {
    if mapping == [] then []
    else (if mapping[0].mozTrust == trust then [mapping[0].appName] else []) + NamesFor(trust, mapping[1..])
  }

  /** For every trusted setting in order, every application it maps to in order. */
  function Applications(trusts: seq<string>, mapping: seq<Row>): seq<string> {
    if trusts == [] then [] else NamesFor(trusts[0], mapping) + Applications(trusts[1..], mapping)
  }

  /** The inner loop: the mapping is searched to its end, since there may be more than one application. */
  method AddMapped(apps: seq<string>, trust: string, trustMapping: seq<Row>) returns (more: seq<string>)
    ensures more == apps + NamesFor(trust, trustMapping)
  {
    more := apps;
    var j := 0;
    assert trustMapping[0..] == trustMapping;
    while j < |trustMapping|
      invariant 0 <= j <= |trustMapping|
      invariant more + NamesFor(trust, trustMapping[j..]) == apps + NamesFor(trust, trustMapping)
    {
      var row := trustMapping[j];
      ghost var others := NamesFor(trust, trustMapping[j + 1..]);
      assert trustMapping[j..][1..] == trustMapping[j + 1..];
      if trust == row.mozTrust {
        assert more + ([row.appName] + others) == more + [row.appName] + others;
        more := more + [row.appName];
      } else {
        assert [] + others == others;
      }
      j := j + 1;
    }
  }

  method ApplicationList(trustTrustList: seq<string>, trustMapping: seq<Row>) returns (apps: seq<string>)
    ensures apps == Applications(trustTrustList, trustMapping)
  {
    hide NamesFor;
    apps := [];
    var i := 0;
    assert trustTrustList[0..] == trustTrustList;
    while i < |trustTrustList|
      invariant 0 <= i <= |trustTrustList|
      invariant apps + Applications(trustTrustList[i..], trustMapping) == Applications(trustTrustList, trustMapping)
    {
      ghost var names := NamesFor(trustTrustList[i], trustMapping);
      ghost var rest := Applications(trustTrustList[i + 1..], trustMapping);
      assert trustTrustList[i..][1..] == trustTrustList[i + 1..];
      assert apps + (names + rest) == apps + names + rest;
      apps := AddMapped(apps, trustTrustList[i], trustMapping);
      i := i + 1;
    }
  }

  /** Every pair of a trusted setting and a row is looked at on its own, the settings in order and for each
      the rows in order: so each application is listed as often, and where, its pairs come. */
  lemma {:induction false} ApplicationsInOrder(a: seq<string>, b: seq<string>, mapping: seq<Row>)
    ensures Applications(a + b, mapping) == Applications(a, mapping) + Applications(b, mapping)
  {
    hide NamesFor;
    if a == [] {
      assert a + b == b;
    } else {
      ApplicationsInOrder(a[1..], b, mapping);
      assert (a + b)[0] == a[0] && (a + b)[1..] == a[1..] + b;
      var x, y, z := NamesFor(a[0], mapping), Applications(a[1..], mapping), Applications(b, mapping);
      assert x + (y + z) == x + y + z;
    }
  }

  lemma {:induction false} NamesInOrder(trust: string, a: seq<Row>, b: seq<Row>)
    ensures NamesFor(trust, a + b) == NamesFor(trust, a) + NamesFor(trust, b)
  {
    if a == [] {
      assert a + b == b;
    } else {
      NamesInOrder(trust, a[1..], b);
      assert (a + b)[0] == a[0] && (a + b)[1..] == a[1..] + b;
      var here := if a[0].mozTrust == trust then [a[0].appName] else [];
      var y, z := NamesFor(trust, a[1..]), NamesFor(trust, b);
      assert here + (y + z) == here + y + z;
    }
  }

  lemma OneSetting(trust: string, a: seq<Row>, row: Row, b: seq<Row>)
    ensures Applications([trust], a + [row] + b)
      == Applications([trust], a) + (if row.mozTrust == trust then [row.appName] else []) + Applications([trust], b)
  {
    hide NamesFor, Applications;
    NamesInOrder(trust, a + [row], b);
    NamesInOrder(trust, a, [row]);
    NamesOfOne(trust, row);
    OneTrust(trust, a + [row] + b);
    OneTrust(trust, a);
    OneTrust(trust, b);
  }

  lemma NamesOfOne(trust: string, row: Row)
    ensures NamesFor(trust, [row]) == if row.mozTrust == trust then [row.appName] else []
  {
    assert [row][1..] == [];
  }

  lemma OneTrust(trust: string, mapping: seq<Row>)
    ensures Applications([trust], mapping) == NamesFor(trust, mapping)
  {
    assert [trust][1..] == [];
    hide NamesFor;
    assert NamesFor(trust, mapping) + [] == NamesFor(trust, mapping);
  }

  lemma {:induction false} NamesForMembers(trust: string, mapping: seq<Row>, app: string)
    ensures app in NamesFor(trust, mapping) <==> exists r | r in mapping :: r.mozTrust == trust && r.appName == app
  {
    if mapping != [] {
      NamesForMembers(trust, mapping[1..], app);
      assert forall r :: r in mapping <==> r == mapping[0] || r in mapping[1..];
    }
  }

  /** An application is listed exactly when some setting the certificate is trusted for maps to it. */
  lemma {:induction false} ListedExactly(trusts: seq<string>, mapping: seq<Row>, app: string)
    ensures app in Applications(trusts, mapping) <==>
      exists r | r in mapping :: r.mozTrust in trusts && r.appName == app
  {
    if trusts != [] {
      NamesForMembers(trusts[0], mapping, app);
      ListedExactly(trusts[1..], mapping, app);
    }
  }
}
