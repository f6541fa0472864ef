/** The configuration as the agent fills it in, prints it and reads it. */
module EnvFileCode {
  import opened Bytes
  import opened EnvFile

  method ReadEnvFile(t: string) returns (values: Option<map<string, string>>)
    ensures values == Read(t)
  {
    values := ScanLines(SplitLines(t));
  }

  method ScanLines(lines: seq<string>) returns (values: Option<map<string, string>>)
    ensures values == ReadAll(lines)
  {
    var m := map[];
    var i := 0;
    while i < |lines|
      invariant 0 <= i <= |lines| && forall j :: 0 <= j < i ==> Utf8Length(lines[j]) <= LINE_LIMIT
      invariant ReadLines(m, lines[i..]) == ReadLines(map[], lines)
    {
      if Utf8Length(lines[i]) > LINE_LIMIT {
        return None;
      }
      ReadOneMore(m, lines, i);
      m := ReadLine(m, lines[i]);
      i := i + 1;
    }
    values := Some(m);
  }

  lemma ReadOneMore(m: map<string, string>, lines: seq<string>, i: nat)
    requires i < |lines|
    ensures ReadLines(m, lines[i..]) == ReadLines(ReadLine(m, lines[i]), lines[i + 1..])
  {
    assert lines[i..][1..] == lines[i + 1..];
  }

  class AgentConfig {
    var relayURL: string
    var enrollmentCode: string
    var orgID: string
    var deviceGroup: string
    var unattendedPassword: string
    var turnURL: string
    var turnUser: string
    var turnPass: string
    var certFile: string
    var keyFile: string
    var caFile: string

    function Values(): Settings
      reads this
    {
      var vs := [relayURL, enrollmentCode, orgID, deviceGroup, unattendedPassword, turnURL, turnUser, turnPass,
                 certFile, keyFile, caFile];
      assert |vs| == 11;
      vs
    }

    constructor ()
      ensures Values() == NOTHING_SET
    {
      relayURL, enrollmentCode, orgID, deviceGroup, unattendedPassword := "", "", "", "", "";
      turnURL, turnUser, turnPass, certFile, keyFile, caFile := "", "", "", "", "", "";
    }

    method RenderEnvFile() returns (t: string)
      ensures t == Rendered(Values())
    {
      var lines := [Line("RELAY_URL", relayURL)];
      lines := AddEnrollment(lines);
      lines := AddDevice(lines);
      lines := AddConnection(lines);
      lines := lines + [Line("NO_BROWSER", "1")];
      t := Join(lines, "\n") + "\n";
    }

    method AddEnrollment(before: seq<string>) returns (lines: seq<string>)
      requires Begun(before, Values(), 1)
      ensures Begun(lines, Values(), 3)
    {
      lines := AddLine(before, "ENROLLMENT_CODE", enrollmentCode, Values(), 1);
      lines := AddLine(lines, "ORG_ID", orgID, Values(), 2);
    }

    method AddDevice(before: seq<string>) returns (lines: seq<string>)
      requires Begun(before, Values(), 3)
      ensures Begun(lines, Values(), 5)
    {
      lines := AddLine(before, "DEVICE_GROUP", deviceGroup, Values(), 3);
      lines := AddLine(lines, "UNATTENDED_PASSWORD", unattendedPassword, Values(), 4);
    }

    method AddConnection(before: seq<string>) returns (lines: seq<string>)
      requires Begun(before, Values(), 5)
      ensures Begun(lines, Values(), 11)
    {
      lines := AddLine(before, "TURN_URL", turnURL, Values(), 5);
      lines := AddLine(lines, "TURN_USER", turnUser, Values(), 6);
      lines := AddLine(lines, "TURN_PASS", turnPass, Values(), 7);
      lines := AddLine(lines, "AGENT_CERT_FILE", certFile, Values(), 8);
      lines := AddLine(lines, "AGENT_KEY_FILE", keyFile, Values(), 9);
      lines := AddLine(lines, "AGENT_CA_FILE", caFile, Values(), 10);
    }

    /** The lines of all settings before the i-th. */
    static ghost predicate Begun(lines: seq<string>, vs: Settings, i: nat) {
      i <= 11 && lines + LinesFrom(KEYS, vs, i) == LinesFrom(KEYS, vs, 0)
    }

    /** Adds the line of a setting that is not empty. */
    static method AddLine(before: seq<string>, key: string, value: string, ghost vs: Settings, ghost i: nat)
        returns (lines: seq<string>)
      requires 0 < i < 11 && key == KEYS[i] && value == vs[i] && Begun(before, vs, i)
      ensures Begun(lines, vs, i + 1)
    {
      lines := before;
      if value != "" {
        lines := lines + [Line(key, value)];
        Assoc(before, [Line(key, value)], LinesFrom(KEYS, vs, i + 1));
      }
    }

    method SetByKey(key: string, value: string)
      requires value != ""
      modifies this
      ensures forall i :: 0 <= i < 11 ==> Values()[i] == if KEYS[i] == key then value else old(Values())[i]
    {
      match key
      case "RELAY_URL" => relayURL := value;
      case "ENROLLMENT_CODE" => enrollmentCode := value;
      case "ORG_ID" => orgID := value;
      case "DEVICE_GROUP" => deviceGroup := value;
      case "UNATTENDED_PASSWORD" => unattendedPassword := value;
      case _ => SetConnectionKey(key, value);
    }

    method SetConnectionKey(key: string, value: string)
      requires value != "" && forall i :: 0 <= i < 5 ==> KEYS[i] != key
      modifies this
      ensures forall i :: 0 <= i < 11 ==> Values()[i] == if KEYS[i] == key then value else old(Values())[i]
    {
      match key
      case "TURN_URL" => turnURL := value;
      case "TURN_USER" => turnUser := value;
      case "TURN_PASS" => turnPass := value;
      case "AGENT_CERT_FILE" => certFile := value;
      case "AGENT_KEY_FILE" => keyFile := value;
      case "AGENT_CA_FILE" => caFile := value;
      case _ =>
    }

    /** Takes the values in any order. */
    method Apply(values: map<string, string>)
      modifies this
      ensures Values() == Applied(old(Values()), values)
    {
      var left := values.Keys;
      while left != {}
        invariant left <= values.Keys
        invariant forall i :: 0 <= i < 11 ==>
          Values()[i] == if KEYS[i] !in left && ValueFor(values, KEYS[i]) != "" then ValueFor(values, KEYS[i])
                         else old(Values())[i]
        decreases left
      {
        var key :| key in left;
        var value := TrimQuotes(TrimSpace(values[key]));
        if value != "" {
          SetByKey(key, value);
        }
        left := left - {key};
      }
    }
  }

  lemma {:induction false} LineIn(keys: seq<string>, vs: Settings, i: nat, j: nat)
    requires |keys| == 11 && i <= j < 11 && Printed(vs, j)
    ensures keys[j] + "=" + vs[j] in LinesFrom(keys, vs, i)
    decreases 11 - i
  {
    if i < j {
      LineIn(keys, vs, i + 1, j);
    }
  }

  lemma {:induction false} FieldPrinted(vs: Settings, j: nat, key: string)
    requires j < 11 && KEYS[j] == key
    ensures Printed(vs, j) ==> key + "=" + vs[j] in LinesFrom(KEYS, vs, 0)
  {
    if Printed(vs, j) {
      LineIn(KEYS, vs, 0, j);
    }
  }

  /** Each field is printed under its own key, the relay's address always and the others when they are not empty. */
  lemma {:induction false} FieldsPrinted(c: AgentConfig)
    ensures var lines := LinesFrom(KEYS, c.Values(), 0);
            && "RELAY_URL" + "=" + c.relayURL in lines
            && (c.enrollmentCode != "" ==> "ENROLLMENT_CODE" + "=" + c.enrollmentCode in lines)
            && (c.orgID != "" ==> "ORG_ID" + "=" + c.orgID in lines)
            && (c.deviceGroup != "" ==> "DEVICE_GROUP" + "=" + c.deviceGroup in lines)
            && (c.unattendedPassword != "" ==> "UNATTENDED_PASSWORD" + "=" + c.unattendedPassword in lines)
  {
    FieldPrinted(c.Values(), 0, "RELAY_URL");
    FieldPrinted(c.Values(), 1, "ENROLLMENT_CODE");
    FieldPrinted(c.Values(), 2, "ORG_ID");
    FieldPrinted(c.Values(), 3, "DEVICE_GROUP");
    FieldPrinted(c.Values(), 4, "UNATTENDED_PASSWORD");
  }

  lemma {:induction false} ConnectionPrinted(c: AgentConfig)
    ensures var lines := LinesFrom(KEYS, c.Values(), 0);
            && (c.turnURL != "" ==> "TURN_URL" + "=" + c.turnURL in lines)
            && (c.turnUser != "" ==> "TURN_USER" + "=" + c.turnUser in lines)
            && (c.turnPass != "" ==> "TURN_PASS" + "=" + c.turnPass in lines)
            && (c.certFile != "" ==> "AGENT_CERT_FILE" + "=" + c.certFile in lines)
            && (c.keyFile != "" ==> "AGENT_KEY_FILE" + "=" + c.keyFile in lines)
            && (c.caFile != "" ==> "AGENT_CA_FILE" + "=" + c.caFile in lines)
  {
    FieldPrinted(c.Values(), 5, "TURN_URL");
    FieldPrinted(c.Values(), 6, "TURN_USER");
    FieldPrinted(c.Values(), 7, "TURN_PASS");
    FieldPrinted(c.Values(), 8, "AGENT_CERT_FILE");
    FieldPrinted(c.Values(), 9, "AGENT_KEY_FILE");
    FieldPrinted(c.Values(), 10, "AGENT_CA_FILE");
  }
}
