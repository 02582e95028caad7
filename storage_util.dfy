/** The project-id and hash helpers of the storage utilities.
    A project id is `owner+name`, a full name `owner/name`, a displayed name `owner / name`. */
module StorageUtil {
  import opened Wrappers
  import Js

  /** Separator inside a project id. */
  const ProjectIdSep: char := '+'
  /** Separator of a project's full name, also used (with spaces) in its displayed name. */
  const DisplayedNameSep: char := '/'

  /** `s.indexOf(c)`: the position of the first `c` in `s`, or -1. */
  function IndexOf(s: string, c: char): (r: int)
    ensures -1 <= r < |s|
    ensures r == -1 <==> c !in s
    ensures r >= 0 ==> s[r] == c && c !in s[..r]
  {
    if |s| == 0 then -1
    else if s[0] == c then 0
    else
      var k := IndexOf(s[1..], c);
      assert k >= 0 ==> s[..k + 1] == [s[0]] + s[1..][..k];
      if k == -1 then -1 else k + 1
  }

  /** `s.replace(c, rep)` with a one-character string pattern: only the first `c` is replaced. */
  function ReplaceFirst(s: string, c: char, rep: string): (r: string)
    ensures c !in s ==> r == s
    ensures c in s ==> |r| == |s| - 1 + |rep|
    ensures c in s ==> exists u, v :: c !in u && s == u + [c] + v && r == u + rep + v
  {
    var k := IndexOf(s, c);
    if k < 0 then s
    else
      assert s == s[..k] + [c] + s[k + 1..];
      s[..k] + rep + s[k + 1..]
  }

  /** The first `c` of `u + [c] + v` is at `|u|` when `u` holds none. */
  lemma {:induction false} IndexOfAfter(u: string, c: char, v: string)
    requires c !in u
    ensures IndexOf(u + [c] + v, c) == |u|
  {
    if u != [] {
      assert (u + [c] + v)[1..] == u[1..] + [c] + v;
      IndexOfAfter(u[1..], c, v);
    }
  }

  /** ReplaceFirst rewrites exactly the first occurrence: the part before it, which holds no `c`,
      and everything after it are kept. */
  lemma ReplaceFirstAt(u: string, c: char, v: string, rep: string)
    requires c !in u
    ensures ReplaceFirst(u + [c] + v, c, rep) == u + rep + v
  {
    var s := u + [c] + v;
    IndexOfAfter(u, c, v);
    assert s[..|u|] == u && s[|u| + 1..] == v;
  }

  /** JavaScript truthiness of an optional string argument: undefined, null and '' are falsy. */
  predicate Given(projectId: Option<string>) {
    projectId.Some? && projectId.value != ""
  }

  /** getProjectFullNameFromProjectId: `owner+name` to `owner/name`; undefined when no id is given. */
  function ProjectFullNameFromProjectId(projectId: Option<string>): (r: Option<string>)
    ensures r.Some? <==> Given(projectId)
    ensures r.Some? ==> |r.value| == |projectId.value|
  {
    if Given(projectId) then Some(ReplaceFirst(projectId.value, ProjectIdSep, [DisplayedNameSep])) else None
  }

  /** getProjectDisplayedNameFromProjectId: `owner+name` to `owner / name`; undefined when no id is given. */
  function ProjectDisplayedNameFromProjectId(projectId: Option<string>): (r: Option<string>)
    ensures r.Some? <==> Given(projectId)
    ensures r.Some? ==> |r.value| == |projectId.value| + (if ProjectIdSep in projectId.value then 2 else 0)
  {
    if Given(projectId) then Some(ReplaceFirst(projectId.value, ProjectIdSep, [' ', DisplayedNameSep, ' '])) else None
  }

  /** getProjectIdFromProjectFullName: `owner/name` to `owner+name`; undefined when no name is given. */
  function ProjectIdFromProjectFullName(projectFullName: Option<string>): (r: Option<string>)
    ensures r.Some? <==> Given(projectFullName)
    ensures r.Some? ==> |r.value| == |projectFullName.value|
  {
    if Given(projectFullName) then Some(ReplaceFirst(projectFullName.value, DisplayedNameSep, [ProjectIdSep])) else None
  }

  /** getProjectIdFromOwnerIdAndProjectName: joins the two parts with the id separator. */
  function ProjectIdFromOwnerIdAndProjectName(userId: string, projectName: string): (r: string)
    ensures ProjectIdSep in r && |r| == |userId| + 1 + |projectName|
  {
    userId + [ProjectIdSep] + projectName
  }

  /** getProjectNameFromProjectId: everything after the first separator (the whole id when there is none,
      since indexOf gives -1). */
  function ProjectNameFromProjectId(projectId: Option<string>): (r: Option<string>)
    ensures r.Some? <==> Given(projectId)
    ensures r.Some? ==> ProjectIdSep !in projectId.value ==> r.value == projectId.value
  {
    if Given(projectId) then Some(projectId.value[IndexOf(projectId.value, ProjectIdSep) + 1..]) else None
  }

  /** getOwnerFromProjectId: everything before the first separator (`substring(0, -1)` is '' when there is none). */
  function OwnerFromProjectId(projectId: Option<string>): (r: Option<string>)
    ensures r.Some? <==> Given(projectId)
    ensures r.Some? ==> ProjectIdSep !in r.value
    ensures r.Some? ==> ProjectIdSep !in projectId.value ==> r.value == ""
  {
    if Given(projectId) then
      var k := IndexOf(projectId.value, ProjectIdSep);
      Some(projectId.value[..if k < 0 then 0 else k])
    else None
  }

  /** The full name of `owner+name` is `owner/name` when the owner holds no `+`. */
  lemma FullNameOfProjectId(owner: string, name: string)
    requires ProjectIdSep !in owner
    ensures ProjectFullNameFromProjectId(Some(owner + [ProjectIdSep] + name)) == Some(owner + [DisplayedNameSep] + name)
  {
    ReplaceFirstAt(owner, ProjectIdSep, name, [DisplayedNameSep]);
  }

  /** The displayed name of `owner+name` is `owner / name` when the owner holds no `+`. */
  lemma DisplayedNameOfProjectId(owner: string, name: string)
    requires ProjectIdSep !in owner
    ensures ProjectDisplayedNameFromProjectId(Some(owner + [ProjectIdSep] + name))
         == Some(owner + [' ', DisplayedNameSep, ' '] + name)
  {
    ReplaceFirstAt(owner, ProjectIdSep, name, [' ', DisplayedNameSep, ' ']);
  }

  /** The project id of `owner/name` is `owner+name` when the owner holds no `/`. */
  lemma ProjectIdOfFullName(owner: string, name: string)
    requires DisplayedNameSep !in owner
    ensures ProjectIdFromProjectFullName(Some(owner + [DisplayedNameSep] + name)) == Some(owner + [ProjectIdSep] + name)
  {
    ReplaceFirstAt(owner, DisplayedNameSep, name, [ProjectIdSep]);
  }

  /** Id to full name and back gives the id again when the owner holds neither separator. */
  lemma IdFullNameRoundTrip(owner: string, name: string)
    requires ProjectIdSep !in owner && DisplayedNameSep !in owner
    ensures ProjectIdFromProjectFullName(ProjectFullNameFromProjectId(Some(owner + [ProjectIdSep] + name)))
         == Some(owner + [ProjectIdSep] + name)
  {
    FullNameOfProjectId(owner, name);
    ProjectIdOfFullName(owner, name);
  }

  /** Full name to id and back gives the full name again when the owner holds neither separator. */
  lemma FullNameIdRoundTrip(owner: string, name: string)
    requires ProjectIdSep !in owner && DisplayedNameSep !in owner
    ensures ProjectFullNameFromProjectId(ProjectIdFromProjectFullName(Some(owner + [DisplayedNameSep] + name)))
         == Some(owner + [DisplayedNameSep] + name)
  {
    ProjectIdOfFullName(owner, name);
    FullNameOfProjectId(owner, name);
  }

  /** The owner and the project name are recovered from the id built of them when the owner holds no `+`. */
  lemma OwnerAndNameRoundTrip(userId: string, projectName: string)
    requires ProjectIdSep !in userId
    ensures OwnerFromProjectId(Some(ProjectIdFromOwnerIdAndProjectName(userId, projectName))) == Some(userId)
    ensures ProjectNameFromProjectId(Some(ProjectIdFromOwnerIdAndProjectName(userId, projectName))) == Some(projectName)
  {
    var id := userId + [ProjectIdSep] + projectName;
    IndexOfAfter(userId, ProjectIdSep, projectName);
    assert id[..|userId|] == userId && id[|userId| + 1..] == projectName;
  }

  /** Conversely, an id that holds a separator is its owner and project name joined again. */
  lemma ProjectIdFromItsParts(projectId: string)
    requires ProjectIdSep in projectId
    ensures ProjectIdFromOwnerIdAndProjectName(OwnerFromProjectId(Some(projectId)).value,
                                               ProjectNameFromProjectId(Some(projectId)).value) == projectId
  {
    var k := IndexOf(projectId, ProjectIdSep);
    assert projectId == projectId[..k] + [projectId[k]] + projectId[k + 1..];
  }

  /** A hash string is tagged when it starts with `#`. */
  predicate Tagged(s: string) {
    |s| > 0 && s[0] == '#'
  }

  /** getHashTaggedHash: a string gets a `#` prefix unless it has one (''[0] is undefined, so '' becomes '#');
      any other value is returned as it is. */
  function HashTaggedHash(hash: Js.Value): (r: Js.Value)
    ensures r.Str? <==> hash.Str?
    ensures hash.NonString? ==> r == hash
    ensures hash.Str? ==> Tagged(r.s) && (r.s == hash.s || r.s == ['#'] + hash.s)
    ensures hash.Str? && Tagged(hash.s) ==> r == hash
  {
    match hash
    case Str(s) => if |s| > 0 && s[0] == '#' then hash else Js.Str(['#'] + s)
    case NonString(_) => hash
  }

  /** Tagging twice is tagging once. */
  lemma HashTaggedIdempotent(hash: Js.Value)
    ensures HashTaggedHash(HashTaggedHash(hash)) == HashTaggedHash(hash)
  {
  }

  /** The cases of the storage utility's own tests for full names. */
  lemma FullNameExamples()
    ensures ProjectFullNameFromProjectId(Some("ownerId+projectName")) == Some("ownerId/projectName")
    ensures ProjectFullNameFromProjectId(None) == None
  {
    var owner, name := "ownerId", "projectName";
    assert "ownerId+projectName" == owner + [ProjectIdSep] + name;
    assert "ownerId/projectName" == owner + [DisplayedNameSep] + name;
    FullNameOfProjectId(owner, name);
  }

  /** The cases of the storage utility's own tests for displayed names. */
  lemma DisplayedNameExamples()
    ensures ProjectDisplayedNameFromProjectId(Some("ownerId+projectName")) == Some("ownerId / projectName")
    ensures ProjectDisplayedNameFromProjectId(None) == None
  {
    var owner, name := "ownerId", "projectName";
    assert "ownerId+projectName" == owner + [ProjectIdSep] + name;
    assert "ownerId / projectName" == owner + [' ', DisplayedNameSep, ' '] + name;
    DisplayedNameOfProjectId(owner, name);
  }

  /** The cases of the storage utility's own tests for ids. */
  lemma ProjectIdExamples()
    ensures ProjectIdFromProjectFullName(Some("ownerId/projectName")) == Some("ownerId+projectName")
    ensures ProjectIdFromProjectFullName(None) == None
    ensures ProjectIdFromOwnerIdAndProjectName("ownerId", "projectName") == "ownerId+projectName"
  {
    assert "ownerId/projectName" == "ownerId" + [DisplayedNameSep] + "projectName";
    assert "ownerId+projectName" == "ownerId" + [ProjectIdSep] + "projectName";
    ProjectIdOfFullName("ownerId", "projectName");
  }

  /** The cases of the storage utility's own tests for project names. */
  lemma ProjectNameExamples()
    ensures ProjectNameFromProjectId(Some("ownerId+projectName")) == Some("projectName")
    ensures ProjectNameFromProjectId(None) == None
  {
    assert "ownerId+projectName" == "ownerId" + [ProjectIdSep] + "projectName";
    OwnerAndNameRoundTrip("ownerId", "projectName");
  }
}
