/** The user and group checks: group existence, membership and id read from
    the text of /etc/group, and user fields read from the system's user
    directory. The file text and the directory lookup are parameters. */
module UsersAndGroups {
  import opened Text
  import opened Helpers

  // ===========================================================================
  // /etc/group
  // ===========================================================================

  /** Group (users-and-groups.go): what one /etc/group entry gives. */
  datatype Group = Group(name: string, id: int, users: seq<string>)

  /** The lines of /etc/group, each split into its colon-separated fields. */
  function GroupLines(data: string): Table
  {
    SeparateString(data, '\n', ':')
  }

  /** The group a line of more than three fields describes: name from field 0,
      id from field 2, users from field 3 split at commas. A gid that is not a
      decimal 64-bit integer stops the run. */
  function ParseGroupLine(line: Row): (r: Result<Group>)
    requires |line| > 3
    ensures r.Ok? ==> r.value.name == line[0] && MinInt64 <= r.value.id <= MaxInt64 && |r.value.users| >= 1
  {
    match ParseInt(line[2], 10)
    case None => Err("Could not parse ID for group: " + line[0])
    case Some(gid) => Ok(Group(line[0], gid, Split(line[3], ',')))
  }

  /** A line parses exactly when its gid does; the group then carries the name,
      the gid, and the comma-free user names that join back to field 3. */
  lemma ParseGroupLineFields(line: Row)
    requires |line| > 3
    ensures ParseGroupLine(line).Ok? <==> ParseInt(line[2], 10).Some?
    ensures ParseGroupLine(line).Err? ==> ParseGroupLine(line).reason == "Could not parse ID for group: " + line[0]
    ensures ParseGroupLine(line).Ok? ==>
              var g := ParseGroupLine(line).value;
              g.name == line[0] && ParseInt(line[2], 10) == Some(g.id) &&
              Join(g.users, ',') == line[3] &&
              forall k :: 0 <= k < |g.users| ==> ',' !in g.users[k]
  {
    JoinSplit(line[3], ',');
  }

  /** The lines getGroups keeps: those with more than three fields, in order. */
  function Kept(lines: Table): (kept: Table)
    ensures |kept| <= |lines|
    ensures forall k :: 0 <= k < |kept| ==> |kept[k]| > 3
  {
    if |lines| == 0 then []
    else Kept(lines[..|lines| - 1]) + (if |lines[|lines| - 1]| > 3 then [lines[|lines| - 1]] else [])
  }

  /** A line is kept exactly when it has more than three fields. */
  lemma {:induction false} KeptMembers(lines: Table)
    ensures forall x :: x in Kept(lines) <==> x in lines && |x| > 3
  {
    if |lines| > 0 {
      var init := lines[..|lines| - 1];
      KeptMembers(init);
      assert lines == init + [lines[|lines| - 1]];
    }
  }

  /** getGroups on the tokenized lines: every kept line parsed in order, or the
      fatal stop of the first kept line whose gid does not parse. */
  function ParseGroups(lines: Table): Result<seq<Group>>
  {
    if |lines| == 0 then Ok([])
    else
      var last := lines[|lines| - 1];
      match ParseGroups(lines[..|lines| - 1])
      case Err(e) => Err(e)
      case Ok(groups) =>
        if |last| > 3 then
          match ParseGroupLine(last)
          case Err(e) => Err(e)
          case Ok(g) => Ok(groups + [g])
        else Ok(groups)
  }

  /** Once a prefix of the lines stops the run, the rest is never read. */
  lemma {:induction false} ParseGroupsStopsAt(lines: Table, k: nat)
    requires k <= |lines|
    requires ParseGroups(lines[..k]).Err?
    ensures ParseGroups(lines) == ParseGroups(lines[..k])
    decreases |lines| - k
  {
    if k < |lines| {
      var init := lines[..|lines| - 1];
      assert init[..k] == lines[..k];
      ParseGroupsStopsAt(init, k);
    } else {
      assert lines[..k] == lines;
    }
  }

  /** getGroups keeps a line exactly when it has more than three fields, in
      line order, and parses each kept line into the group at its position. */
  lemma {:induction false} ParseGroupsKept(lines: Table)
    requires ParseGroups(lines).Ok?
    ensures |ParseGroups(lines).value| == |Kept(lines)|
    ensures forall k :: 0 <= k < |Kept(lines)| ==> ParseGroupLine(Kept(lines)[k]) == Ok(ParseGroups(lines).value[k])
    decreases |lines|
  {
    if |lines| > 0 {
      var init := lines[..|lines| - 1];
      var last := lines[|lines| - 1];
      assert ParseGroups(init).Ok?;
      ParseGroupsKept(init);
      var gs := ParseGroups(init).value;
      if |last| > 3 {
        var g := ParseGroupLine(last).value;
        assert ParseGroups(lines).value == gs + [g];
        assert Kept(lines) == Kept(init) + [last];
      } else {
        assert ParseGroups(lines).value == gs;
        assert Kept(lines) == Kept(init);
      }
    }
  }

  /** getGroups stops the run exactly when some line of more than three fields
      has a gid that does not parse. */
  lemma {:induction false} ParseGroupsFails(lines: Table)
    ensures ParseGroups(lines).Err? <==> exists k :: 0 <= k < |lines| && |lines[k]| > 3 && ParseInt(lines[k][2], 10).None?
    decreases |lines|
  {
    if |lines| > 0 {
      var init := lines[..|lines| - 1];
      ParseGroupsFails(init);
      assert forall k :: 0 <= k < |init| ==> init[k] == lines[k];
    }
  }

  /** One more line extends the parse of a prefix by that line. */
  lemma ParseGroupsNext(lines: Table, i: nat, groups: seq<Group>)
    requires i < |lines| && ParseGroups(lines[..i]) == Ok(groups)
    ensures |lines[i]| <= 3 ==> ParseGroups(lines[..i + 1]) == Ok(groups)
    ensures |lines[i]| > 3 ==>
              ParseGroups(lines[..i + 1]) ==
                match ParseGroupLine(lines[i])
                case Err(e) => Err(e)
                case Ok(g) => Ok(groups + [g])
  {
    assert lines[..i + 1][..i] == lines[..i];
  }

  /** getGroups (users-and-groups.go), with the file text as input. */
  method GetGroups(data: string) returns (r: Result<seq<Group>>)
    ensures r == ParseGroups(GroupLines(data))
  {
    var lines := SeparateString(data, '\n', ':');
    var groups: seq<Group> := [];
    for i := 0 to |lines|
      invariant ParseGroups(lines[..i]) == Ok(groups)
    {
      var line := lines[i];
      ParseGroupsNext(lines, i, groups);
      if |line| > 3 {
        var gid := ParseInt(line[2], 10);
        if gid.None? {
          ParseGroupsStopsAt(lines, i + 1);
          return Err("Could not parse ID for group: " + line[0]);
        }
        var userSlice := Split(line[3], ',');
        var group := Group(line[0], gid.value, userSlice);
        groups := groups + [group];
      }
    }
    assert lines[..|lines|] == lines;
    return Ok(groups);
  }

  /** The names of the groups, in order. */
  function GroupNames(groups: seq<Group>): seq<string>
  {
    if |groups| == 0 then [] else GroupNames(groups[..|groups| - 1]) + [groups[|groups| - 1].name]
  }

  /** Index of the first group at or after `from` with the given name. */
  function FindGroup(groups: seq<Group>, name: string, from: nat): (r: Option<nat>)
    ensures r.Some? ==> from <= r.value < |groups| && groups[r.value].name == name
    ensures r.Some? ==> forall j :: from <= j < r.value ==> groups[j].name != name
    ensures r.None? ==> forall j :: from <= j < |groups| ==> groups[j].name != name
    decreases |groups| - from
  {
    if from >= |groups| then None
    else if groups[from].name == name then Some(from)
    else FindGroup(groups, name, from + 1)
  }

  /** The loop GroupExists, UserInGroup and GroupId each run over the groups:
      the position of the first group with the name, if any. */
  method LookupGroup(groups: seq<Group>, name: string) returns (r: Option<nat>)
    ensures r == FindGroup(groups, name, 0)
  {
    for i := 0 to |groups|
      invariant FindGroup(groups, name, 0) == FindGroup(groups, name, i)
    {
      if groups[i].name == name {
        return Some(i);
      }
    }
    return None;
  }

  /** groupNotFound (users-and-groups.go): the diagnostic listing every group
      name, after reading the groups again. */
  method GroupNotFound(name: string, data: string) returns (r: Outcome)
    ensures ParseGroups(GroupLines(data)).Err? ==> r == Fatal(ParseGroups(GroupLines(data)).reason)
    ensures ParseGroups(GroupLines(data)).Ok? ==>
              r == GenericError("Group not found", name, GroupNames(ParseGroups(GroupLines(data)).value))
  {
    var groups := GetGroups(data);
    if groups.Err? {
      return Fatal(groups.reason);
    }
    var existing: seq<string> := [];
    for i := 0 to |groups.value|
      invariant existing == GroupNames(groups.value[..i])
    {
      assert groups.value[..i + 1][..i] == groups.value[..i];
      existing := existing + [groups.value[i].name];
    }
    assert groups.value[..|groups.value|] == groups.value;
    return GenericError("Group not found", name, existing);
  }

  /** GroupExists (users-and-groups.go): passes exactly when some group has the
      name; otherwise the diagnostic lists every group name. */
  method GroupExists(parameters: seq<string>, data: string) returns (r: Outcome)
    requires |parameters| >= 1
    ensures ParseGroups(GroupLines(data)).Err? ==> r == Fatal(ParseGroups(GroupLines(data)).reason)
    ensures ParseGroups(GroupLines(data)).Ok? ==>
              var groups := ParseGroups(GroupLines(data)).value;
              (r == Pass <==> exists k :: 0 <= k < |groups| && groups[k].name == parameters[0]) &&
              (r != Pass ==> r == GenericError("Group not found", parameters[0], GroupNames(groups)))
  {
    var name := parameters[0];
    var groups := GetGroups(data);
    if groups.Err? {
      return Fatal(groups.reason);
    }
    var found := LookupGroup(groups.value, name);
    if found.Some? {
      return Pass;
    }
    r := GroupNotFound(name, data);
  }

  /** What UserInGroup yields for a user and a group name: the first group with
      that name decides by its user list; without one, groupNotFound. */
  function UserInGroupOutcome(data: string, user: string, group: string): Outcome
  {
    match ParseGroups(GroupLines(data))
    case Err(e) => Fatal(e)
    case Ok(groups) =>
      match FindGroup(groups, group, 0)
      case Some(k) =>
        if StrIn(user, groups[k].users) then Pass
        else GenericError("User not found in group", user, groups[k].users)
      case None => GenericError("Group not found", group, GroupNames(groups))
  }

  /** UserInGroupOutcome passes exactly when the first group with the name lists
      the user; a failure lists that group's users, or every group name when no
      group has the name. */
  lemma UserInGroupFirstMatch(data: string, user: string, group: string)
    requires ParseGroups(GroupLines(data)).Ok?
    ensures var groups := ParseGroups(GroupLines(data)).value;
            forall k :: 0 <= k < |groups| && groups[k].name == group && (forall j :: 0 <= j < k ==> groups[j].name != group) ==>
              (UserInGroupOutcome(data, user, group) == Pass <==> user in groups[k].users) &&
              (user !in groups[k].users ==> UserInGroupOutcome(data, user, group) == GenericError("User not found in group", user, groups[k].users))
    ensures var groups := ParseGroups(GroupLines(data)).value;
            (forall k :: 0 <= k < |groups| ==> groups[k].name != group) ==>
              UserInGroupOutcome(data, user, group) == GenericError("Group not found", group, GroupNames(groups))
  {
    var groups := ParseGroups(GroupLines(data)).value;
    var first := FindGroup(groups, group, 0);
    if first.Some? {
      forall k | 0 <= k < |groups| && groups[k].name == group && (forall j :: 0 <= j < k ==> groups[j].name != group)
        ensures k == first.value
      {
      }
    }
  }

  /** The user/group search loop shared by both readings of UserInGroup. */
  method FindUserInGroup(user: string, group: string, data: string) returns (r: Outcome)
    ensures r == UserInGroupOutcome(data, user, group)
  {
    var groups := GetGroups(data);
    if groups.Err? {
      return Fatal(groups.reason);
    }
    var found := LookupGroup(groups.value, group);
    if found.Some? {
      var g := groups.value[found.value];
      if StrIn(user, g.users) {
        return Pass;
      }
      return GenericError("User not found in group", user, g.users);
    }
    r := GroupNotFound(group, data);
  }

  /** UserInGroup as users-and-groups.go writes it: user and group are both read
      from parameter 0. */
  method UserInGroup(parameters: seq<string>, data: string) returns (r: Outcome)
    requires |parameters| >= 1
    ensures r == UserInGroupOutcome(data, parameters[0], parameters[0])
  {
    var user := parameters[0];
    var group := parameters[0];
    r := FindUserInGroup(user, group, data);
  }

  /** UserInGroup with the group read from parameter 1, as its comment and the
      positional-parameter convention intend. */
  method UserInGroupCorrected(parameters: seq<string>, data: string) returns (r: Outcome)
    requires |parameters| >= 2
    ensures r == UserInGroupOutcome(data, parameters[0], parameters[1])
  {
    var user := parameters[0];
    var group := parameters[1];
    r := FindUserInGroup(user, group, data);
  }

  /** A one-line group file. */
  const ExampleGroupFile: string := "sudo:x:27:alice"

  /** The one-line group file "sudo:x:27:alice" gives the group sudo, id 27,
      with the single member alice. */
  lemma ExampleGroups()
    ensures ParseGroups(GroupLines(ExampleGroupFile)) == Ok([Group("sudo", 27, ["alice"])])
  {
    ExampleTable();
    ExampleLines(ExampleGroupFile, ["sudo", "x", "27", "alice"]);
    assert GroupLines(ExampleGroupFile) == [["sudo", "x", "27", "alice"]];
  }

  /** The file splits into the one row of its four fields. */
  lemma ExampleLines(data: string, fields: Row)
    requires data == "sudo:x:27:alice" && fields == ["sudo", "x", "27", "alice"]
    ensures GroupLines(data) == [fields]
  {
    assert fields[1..] == ["x", "27", "alice"] && fields[1..][1..] == ["27", "alice"] && fields[1..][1..][1..] == ["alice"];
    assert Join(["alice"], ':') == "alice";
    assert Join(["27", "alice"], ':') == "27:alice";
    assert Join(["x", "27", "alice"], ':') == "x:27:alice";
    assert Join(fields, ':') == data;
    SeparateStringOneRow(fields, '\n', ':');
  }

  /** That row parses into the group sudo. */
  lemma ExampleTable()
    ensures ParseGroups([["sudo", "x", "27", "alice"]]) == Ok([Group("sudo", 27, ["alice"])])
  {
    ExampleLine();
    ParseGroupsOne(["sudo", "x", "27", "alice"], Group("sudo", 27, ["alice"]));
  }

  lemma ExampleLine()
    ensures ParseGroupLine(["sudo", "x", "27", "alice"]) == Ok(Group("sudo", 27, ["alice"]))
  {
    ExampleGid();
    SplitNoSep("alice", ',');
  }

  lemma ExampleGid()
    ensures ParseInt("27", 10) == Some(27)
  {
    assert "27"[..1] == "2";
    assert DigitsValue("27", 10) == 27;
    ParseIntUnsigned("27", 10);
  }

  /** A file of one kept line gives the group of that line. */
  lemma ParseGroupsOne(line: Row, g: Group)
    requires |line| > 3 && ParseGroupLine(line) == Ok(g)
    ensures ParseGroups([line]) == Ok([g])
  {
    var lines: Table := [line];
    assert lines[..0] == [];
    assert ParseGroups(lines[..0]) == Ok([]);
    assert ParseGroups(lines) == Ok([] + [g]);
    assert [] + [g] == [g];
  }

  /** On that file the corrected check accepts alice in sudo and rejects bob,
      listing alice; as written it looks for a group named alice and rejects. */
  lemma UserInGroupExample()
    ensures UserInGroupOutcome(ExampleGroupFile, "alice", "sudo") == Pass
    ensures UserInGroupOutcome(ExampleGroupFile, "bob", "sudo") == GenericError("User not found in group", "bob", ["alice"])
    ensures UserInGroupOutcome(ExampleGroupFile, "alice", "alice") == GenericError("Group not found", "alice", ["sudo"])
  {
    ExampleGroups();
    UserInGroupOnSudo(ExampleGroupFile);
  }

  lemma UserInGroupOnSudo(data: string)
    requires ParseGroups(GroupLines(data)) == Ok([Group("sudo", 27, ["alice"])])
    ensures UserInGroupOutcome(data, "alice", "sudo") == Pass
    ensures UserInGroupOutcome(data, "bob", "sudo") == GenericError("User not found in group", "bob", ["alice"])
    ensures UserInGroupOutcome(data, "alice", "alice") == GenericError("Group not found", "alice", ["sudo"])
  {
    var groups := [Group("sudo", 27, ["alice"])];
    assert FindGroup(groups, "sudo", 0) == Some(0);
    assert FindGroup(groups, "alice", 0) == None;
    assert GroupNames(groups) == ["sudo"];
  }

  /** GroupId (users-and-groups.go): the first group with the name passes exactly
      when its id is the parsed parameter 1; a failure shows that id, and a
      missing group gives groupNotFound. */
  method GroupId(parameters: seq<string>, data: string) returns (r: Outcome)
    requires |parameters| >= 2
    ensures ParseMyInt(parameters[1]).Err? ==> r == Fatal(ParseMyInt(parameters[1]).reason)
    ensures ParseMyInt(parameters[1]).Ok? && ParseGroups(GroupLines(data)).Err? ==>
              r == Fatal(ParseGroups(GroupLines(data)).reason)
    ensures ParseMyInt(parameters[1]).Ok? && ParseGroups(GroupLines(data)).Ok? ==>
              var id := ParseMyInt(parameters[1]).value;
              var groups := ParseGroups(GroupLines(data)).value;
              match FindGroup(groups, parameters[0], 0)
              case Some(k) =>
                (r == Pass <==> groups[k].id == id) &&
                (groups[k].id != id ==>
                   r == GenericError("Group does not have expected ID", IntToString(id), [IntToString(groups[k].id)]))
              case None => r == GenericError("Group not found", parameters[0], GroupNames(groups))
  {
    var name := parameters[0];
    var parsed := ParseMyInt(parameters[1]);
    if parsed.Err? {
      return Fatal(parsed.reason);
    }
    var id := parsed.value;
    var groups := GetGroups(data);
    if groups.Err? {
      return Fatal(groups.reason);
    }
    var found := LookupGroup(groups.value, name);
    if found.Some? {
      var g := groups.value[found.value];
      if g.id == id {
        return Pass;
      }
      var msg := "Group does not have expected ID";
      return GenericError(msg, IntToString(id), [IntToString(g.id)]);
    }
    r := GroupNotFound(name, data);
  }

  // ===========================================================================
  // Users
  // ===========================================================================

  /** The string fields of a user record of the system's user directory. */
  datatype User = User(uid: string, gid: string, username: string, name: string, homeDir: string)

  /** The user field with the given name, standing for the reflective field
      lookup; None for a name that is not a string field. */
  function FieldByName(u: User, fieldName: string): (r: Option<string>)
    ensures r.Some? <==> fieldName in ["Uid", "Gid", "Username", "Name", "HomeDir"]
    ensures r.Some? ==> r.value in [u.uid, u.gid, u.username, u.name, u.homeDir]
  {
    if fieldName == "Uid" then Some(u.uid)
    else if fieldName == "Gid" then Some(u.gid)
    else if fieldName == "Username" then Some(u.username)
    else if fieldName == "Name" then Some(u.name)
    else if fieldName == "HomeDir" then Some(u.homeDir)
    else None
  }

  /** lookupUser as an input: the user a username or uid resolves to, or None
      when neither lookup finds one. */
  type Directory = string -> Option<User>

  /** genericUserField together with userHasField (users-and-groups.go): a user
      that cannot be found fails with "User does not exist"; a field name that is
      not a string field stops the run; otherwise the check passes exactly when
      the field has the value, and a failure names the field, the user and the
      value. */
  method GenericUserField(directory: Directory, usernameOrUid: string, fieldName: string, fieldValue: string)
    returns (r: Outcome)
    ensures directory(usernameOrUid).None? ==> r == Exit(1, "User does not exist: " + usernameOrUid)
    ensures directory(usernameOrUid).Some? && FieldByName(directory(usernameOrUid).value, fieldName).None? ==> r.Fatal?
    ensures directory(usernameOrUid).Some? && FieldByName(directory(usernameOrUid).value, fieldName).Some? ==>
              var actual := FieldByName(directory(usernameOrUid).value, fieldName).value;
              (r == Pass <==> actual == fieldValue) &&
              (actual != fieldValue ==>
                 r.Exit? && r.code == 1 &&
                 Contains(r.message, fieldName) && Contains(r.message, usernameOrUid) && Contains(r.message, fieldValue))
  {
    var user := directory(usernameOrUid);
    if user.None? {
      return Exit(1, "User does not exist: " + usernameOrUid);
    }
    var fieldVal := FieldByName(user.value, fieldName);
    if fieldVal.None? {
      // Every field of the record is a string, so such a name names no field,
      // and reflection reports its kind as "invalid".
      var msg := "Failure during reflection: Field is not a string:";
      msg := msg + "\n\tField name: " + fieldName;
      msg := msg + "\n\tField Kind: invalid";
      msg := msg + "\n\tUser: " + user.value.username;
      return Fatal(msg);
    }
    if fieldVal.value == fieldValue {
      return Pass;
    }
    var msg := "User does not have expected " + fieldName + ": ";
    msg := msg + "\nUser: " + usernameOrUid;
    msg := msg + "\nGiven: " + fieldValue;
    MismatchMessageNamesAll(msg, fieldName, usernameOrUid, fieldValue);
    return Exit(1, msg);
  }

  /** The mismatch message of genericUserField names the field, the user and
      the value it was given. */
  lemma MismatchMessageNamesAll(msg: string, fieldName: string, user: string, value: string)
    requires msg == "User does not have expected " + fieldName + ": " + "\nUser: " + user + "\nGiven: " + value
    ensures Contains(msg, fieldName) && Contains(msg, user) && Contains(msg, value)
  {
    var a := "User does not have expected ";
    var b := ": " + "\nUser: ";
    var c := "\nGiven: ";
    assert msg == a + fieldName + (b + user + c + value);
    ContainsPiece(a, fieldName, b + user + c + value);
    assert msg == (a + fieldName + b) + user + (c + value);
    ContainsPiece(a + fieldName + b, user, c + value);
    assert msg == (a + fieldName + b + user + c) + value + "";
    ContainsPiece(a + fieldName + b + user + c, value, "");
  }

  /** UserExists (users-and-groups.go): passes exactly when the lookup finds the
      user. */
  function UserExists(parameters: seq<string>, directory: Directory): (r: Outcome)
    requires |parameters| >= 1
    ensures r == Pass <==> directory(parameters[0]).Some?
    ensures r != Pass ==> r == Exit(1, "User does not exist: " + parameters[0])
  {
    var usernameOrUid := parameters[0];
    if directory(usernameOrUid).Some? then Pass
    else Exit(1, "User does not exist: " + usernameOrUid)
  }

  /** UserHasUID (users-and-groups.go). */
  method UserHasUID(parameters: seq<string>, directory: Directory) returns (r: Outcome)
    requires |parameters| >= 2
    ensures r.Exit?
    ensures r == Pass <==> directory(parameters[0]).Some? && directory(parameters[0]).value.uid == parameters[1]
  {
    r := GenericUserField(directory, parameters[0], "Uid", parameters[1]);
  }

  /** UserHasGID (users-and-groups.go). */
  method UserHasGID(parameters: seq<string>, directory: Directory) returns (r: Outcome)
    requires |parameters| >= 2
    ensures r.Exit?
    ensures r == Pass <==> directory(parameters[0]).Some? && directory(parameters[0]).value.gid == parameters[1]
  {
    r := GenericUserField(directory, parameters[0], "Gid", parameters[1]);
  }

  /** UserHasUsername (users-and-groups.go). */
  method UserHasUsername(parameters: seq<string>, directory: Directory) returns (r: Outcome)
    requires |parameters| >= 2
    ensures r.Exit?
    ensures r == Pass <==> directory(parameters[0]).Some? && directory(parameters[0]).value.username == parameters[1]
  {
    r := GenericUserField(directory, parameters[0], "Username", parameters[1]);
  }

  /** UserHasName (users-and-groups.go). */
  method UserHasName(parameters: seq<string>, directory: Directory) returns (r: Outcome)
    requires |parameters| >= 2
    ensures r.Exit?
    ensures r == Pass <==> directory(parameters[0]).Some? && directory(parameters[0]).value.name == parameters[1]
  {
    r := GenericUserField(directory, parameters[0], "Name", parameters[1]);
  }

  /** UserHasHomeDir (users-and-groups.go). */
  method UserHasHomeDir(parameters: seq<string>, directory: Directory) returns (r: Outcome)
    requires |parameters| >= 2
    ensures r.Exit?
    ensures r == Pass <==> directory(parameters[0]).Some? && directory(parameters[0]).value.homeDir == parameters[1]
  {
    r := GenericUserField(directory, parameters[0], "HomeDir", parameters[1]);
  }
}
