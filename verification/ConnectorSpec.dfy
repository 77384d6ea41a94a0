/** Connector specs: `{session}={host}:{port}@{endpoint}`, comma separated. */
module ConnectorSpec {
  import opened Text

  const UINT_VALUES: nat := 0x1_0000_0000

  datatype Setting = Setting(session: nat, host: string, port: nat, endpoint: string)

  /** `build_connector_spec`. */
  function BuildSpec(s: Setting): string {
    Decimal(s.session) + "=" + s.host + ":" + Decimal(s.port) + "@" + s.endpoint
  }

  /** std::getline up to a delimiter: the text before it (all, if there is none) and what follows. */
  function GetLine(s: string, d: char): (string, string) {
    var i := Find(s, d);
    if i < 0 then (s, "") else (s[..i], s[i + 1..])
  }

  predicate IsSpace(c: char) {
    c == ' ' || c == '\t' || c == '\n' || c == '\r' || c == 0x0b as char || c == 0x0c as char
  }

  /** `stream >> string`: skips white space, then reads up to the next. */
  function NextWord(s: string): string {
    if s == [] then "" else if IsSpace(s[0]) then NextWord(s[1..]) else TakeWord(s)
  }

  function TakeWord(s: string): string {
    if s == [] || IsSpace(s[0]) then "" else [s[0]] + TakeWord(s[1..])
  }

  /** A setting from the texts of a spec; None when a number does not parse (an exception) or the
      port is missing. */
  function SettingFrom(session: string, gatewayParts: seq<string>, endpoint: string): Option<Setting> {
    var id := CastUnsigned(session, UINT_VALUES);
    if id.None? || |gatewayParts| < 2 then None else
      var port := CastInt(gatewayParts[1]);
      if port.None? then None
      else Some(Setting(id.value, gatewayParts[0], port.value % UINT_VALUES, NextWord(endpoint)))
  }

  function Gateway(input: string): string { GetLine(GetLine(input, '=').1, '@').0 }
  function Endpoint(input: string): string { GetLine(GetLine(input, '=').1, '@').1 }

  /** What a spec denotes. */
  function SettingOf(input: string): Option<Setting> {
    SettingFrom(GetLine(input, '=').0, Split(Gateway(input), ':'), Endpoint(input))
  }

  /** `ParseSessionSettingFromString`. */
  method ParseSetting(input: string) returns (r: Option<Setting>)
    ensures r == SettingOf(input)
  {
    var (session, rest) := GetLine(input, '=');
    var sessionId := CastUnsigned(session, UINT_VALUES);
    var (gateway, endpoint) := GetLine(rest, '@');
    var gatewayParts := Split(gateway, ':');
    if sessionId.None? || |gatewayParts| < 2 {
      return None;
    }
    var port := CastInt(gatewayParts[1]);
    if port.None? {
      return None;
    }
    return Some(Setting(sessionId.value, gatewayParts[0], port.value % UINT_VALUES, NextWord(endpoint)));
  }

  function Append(ss: Option<seq<Setting>>, s: Option<Setting>): Option<seq<Setting>> {
    if ss.None? || s.None? then None else Some(ss.value + [s.value])
  }

  /** The settings of a list of specs, or None if one of them fails. */
  function SettingsOf(specs: seq<string>): Option<seq<Setting>> {
    if specs == [] then Some([]) else Append(SettingsOf(specs[..|specs| - 1]), SettingOf(specs[|specs| - 1]))
  }

  lemma SettingsStep(specs: seq<string>, n: nat, s: Option<Setting>)
    requires n < |specs| && s == SettingOf(specs[n])
    ensures SettingsOf(specs[..n + 1]) == Append(SettingsOf(specs[..n]), s)
  {
    assert specs[..n + 1][..n] == specs[..n];
  }

  lemma {:induction false} FailureSpreads(specs: seq<string>, n: nat)
    requires n <= |specs| && SettingsOf(specs[..n]).None?
    ensures SettingsOf(specs).None?
  {
    if n == |specs| {
      assert specs[..n] == specs;
    } else {
      assert specs[..|specs| - 1][..n] == specs[..n];
      FailureSpreads(specs[..|specs| - 1], n);
    }
  }

  /** `ParseSessionSettingsFromFlag`. */
  method ParseSettings(flag: string) returns (r: Option<seq<Setting>>)
    ensures r == SettingsOf(Split(flag, ','))
  {
    var specs := Split(flag, ',');
    var settings: seq<Setting> := [];
    for i := 0 to |specs|
      invariant SettingsOf(specs[..i]) == Some(settings)
    {
      var s := ParseSetting(specs[i]);
      SettingsStep(specs, i, s);
      if s.None? {
        FailureSpreads(specs, i + 1);
        return None;
      }
      settings := settings + [s.value];
    }
    assert specs[..|specs|] == specs;
    return Some(settings);
  }

  // ---------------------------------------------------------------- parsing undoes printing

  ghost predicate NoSpace(s: string) {
    forall i :: 0 <= i < |s| ==> !IsSpace(s[i])
  }

  /** Settings the format can carry: unsigned session and port, no delimiters in the host, an
      endpoint without commas or white space. */
  ghost predicate Carriable(s: Setting) {
    && s.session < UINT_VALUES && s.port < UINT_VALUES
    && ':' !in s.host && '@' !in s.host && ',' !in s.host
    && s.endpoint != [] && ',' !in s.endpoint && NoSpace(s.endpoint)
  }

  lemma {:induction false} WordIsWhole(s: string)
    requires NoSpace(s)
    ensures TakeWord(s) == s && NextWord(s) == s
  {
    if s != [] {
      WordIsWhole(s[1..]);
    }
  }

  lemma DecimalLacks(n: nat, c: char)
    requires !IsDigit(c)
    ensures c !in Decimal(n)
  {
  }

  lemma LineRead(a: string, d: char, b: string)
    requires d !in a
    ensures GetLine(a + [d] + b, d) == (a, b)
  {
    FindAfter(a, d, b);
  }

  lemma GatewayRead(host: string, port: string)
    requires ':' !in host && ':' !in port
    ensures Split(host + ":" + port, ':') == [host, port]
  {
    SplitUndoesJoin([host, port], ':');
    assert [host, port][1..] == [port];
    assert Join([host, port], ':') == host + ":" + port;
  }

  /** Any spec of the documented form: it denotes its host and endpoint and the numbers its texts read as,
      and fails exactly when one of them is unreadable. */
  lemma AnySpec(session: string, host: string, port: string, endpoint: string)
    requires '=' !in session && ':' !in host && '@' !in host && ':' !in port && '@' !in port && NoSpace(endpoint)
    ensures SettingOf(session + "=" + (host + ":" + port + "@" + endpoint)) ==
            if CastUnsigned(session, UINT_VALUES) == None || CastInt(port) == None then None
            else Some(Setting(CastUnsigned(session, UINT_VALUES).value, host, CastInt(port).value % UINT_VALUES, endpoint))
  {
    var gateway := host + ":" + port;
    LineRead(session, '=', gateway + "@" + endpoint);
    LineRead(gateway, '@', endpoint);
    GatewayRead(host, port);
    WordIsWhole(endpoint);
  }

  /** The parts of a built spec, as the parser takes them apart. */
  lemma SpecParts(s: Setting)
    requires Carriable(s)
    ensures GetLine(BuildSpec(s), '=').0 == Decimal(s.session)
    ensures Split(Gateway(BuildSpec(s)), ':') == [s.host, Decimal(s.port)]
    ensures Endpoint(BuildSpec(s)) == s.endpoint
  {
    var id, port := Decimal(s.session), Decimal(s.port);
    var gateway := s.host + ":" + port;
    DecimalLacks(s.session, '=');
    DecimalLacks(s.port, '@');
    DecimalLacks(s.port, ':');
    assert BuildSpec(s) == id + "=" + (gateway + "@" + s.endpoint);
    LineRead(id, '=', gateway + "@" + s.endpoint);
    LineRead(gateway, '@', s.endpoint);
    GatewayRead(s.host, port);
  }

  /** A spec reads back exactly when its port fits a signed int, although ports are unsigned. */
  lemma SpecRoundTrip(s: Setting)
    requires Carriable(s)
    ensures SettingOf(BuildSpec(s)) == if s.port < 0x8000_0000 then Some(s) else None
  {
    SpecParts(s);
    PartsReadBack(s);
  }

  lemma PartsReadBack(s: Setting)
    requires Carriable(s)
    ensures SettingFrom(Decimal(s.session), [s.host, Decimal(s.port)], s.endpoint) == if s.port < 0x8000_0000 then Some(s) else None
  {
    CastUndoesDecimal(s.session, UINT_VALUES);
    CastUndoesDecimal(s.port, UINT_VALUES);
    WordIsWhole(s.endpoint);
  }

  function BuildSpecs(ss: seq<Setting>): (specs: seq<string>)
    ensures |specs| == |ss| && forall i :: 0 <= i < |ss| ==> specs[i] == BuildSpec(ss[i])
  {
    seq(|ss|, i requires 0 <= i < |ss| => BuildSpec(ss[i]))
  }

  lemma SpecHasNoComma(s: Setting)
    requires Carriable(s)
    ensures ',' !in BuildSpec(s)
  {
    DecimalLacks(s.session, ',');
    DecimalLacks(s.port, ',');
  }

  ghost predicate PortsFitInt(ss: seq<Setting>) {
    forall i :: 0 <= i < |ss| ==> ss[i].port < 0x8000_0000
  }

  lemma LastSpecReadsBack(ss: seq<Setting>)
    requires ss != [] && Carriable(ss[|ss| - 1])
    ensures SettingsOf(BuildSpecs(ss)) ==
            Append(SettingsOf(BuildSpecs(ss[..|ss| - 1])), if ss[|ss| - 1].port < 0x8000_0000 then Some(ss[|ss| - 1]) else None)
  {
    var specs, n := BuildSpecs(ss), |ss| - 1;
    SpecRoundTrip(ss[n]);
    assert specs[..n] == BuildSpecs(ss[..n]) && specs[..n + 1] == specs;
    SettingsStep(specs, n, SettingOf(specs[n]));
  }

  /** What reading the built specs one after the other gives. */
  function ReadBack(ss: seq<Setting>): Option<seq<Setting>> {
    if ss == [] then Some([]) else
      Append(ReadBack(ss[..|ss| - 1]), if ss[|ss| - 1].port < 0x8000_0000 then Some(ss[|ss| - 1]) else None)
  }

  lemma {:induction false} ReadBackIsWhole(ss: seq<Setting>)
    ensures ReadBack(ss) == if PortsFitInt(ss) then Some(ss) else None
  {
    if ss != [] {
      ReadBackIsWhole(ss[..|ss| - 1]);
      assert ss == ss[..|ss| - 1] + [ss[|ss| - 1]];
    }
  }

  lemma {:induction false} SpecsReadBack(ss: seq<Setting>)
    requires forall i :: 0 <= i < |ss| ==> Carriable(ss[i])
    ensures SettingsOf(BuildSpecs(ss)) == ReadBack(ss)
  {
    if ss != [] {
      SpecsReadBack(ss[..|ss| - 1]);
      LastSpecReadsBack(ss);
    }
  }

  /** Joining the built specs with commas and parsing gives back the same settings in order, for every
      nonempty list of carriable settings, exactly when every port is below 2^31. */
  lemma ParsingUndoesPrinting(ss: seq<Setting>)
    requires ss != [] && forall i :: 0 <= i < |ss| ==> Carriable(ss[i])
    ensures SettingsOf(Split(Join(BuildSpecs(ss), ','), ',')) == Some(ss)
       <==> PortsFitInt(ss)
  {
    var specs := BuildSpecs(ss);
    forall i | 0 <= i < |specs| ensures ',' !in specs[i] {
      SpecHasNoComma(ss[i]);
    }
    SplitUndoesJoin(specs, ',');
    SpecsReadBack(ss);
    ReadBackIsWhole(ss);
  }
}
