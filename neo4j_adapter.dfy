/** The Neo4j storage adapter: a reference-counted database connection and the project operations
    that need it. The database's project nodes are a set of project ids; each client call
    (`readNodesWithLabelsAndProperties`, `insertNode`, `deleteNodesWithLabelsAndProperties`,
    `renamenx`) is one atomic step on that set. */
module Neo4j {
  import opened Wrappers

  /** A connection object of the Neo4j client library. */
  class Client {
    constructor ()
    {
    }
  }

  /** The rejections of the project operations. */
  datatype Error =
    | DatabaseNotOpen                  // Database is not open.
    | ProjectDoesNotExist(id: string)
    | ProjectAlreadyExists(id: string)
    | NothingDeleted                   // deleteProject rejects with `false`

  // ---------------------------------------------------------------------------------------------
  // The connection counter

  /** The connection state as the adapter keeps it: the counter and whether a client exists. */
  datatype Connection = Connection(count: int, connected: bool)

  /** The adapter's invariant: the counter is never negative, and a client exists exactly while
      the counter is positive. */
  ghost predicate Consistent(c: Connection) {
    c.count >= 0 && (c.connected <==> c.count > 0)
  }

  /** `openDatabase`: one more user; a client is created on the step to 1 if there is none. */
  function Opened(c: Connection): (r: Connection)
    ensures r.count == c.count + 1
    ensures r.connected <==> c.connected || c.count == 0
    ensures Consistent(c) ==> Consistent(r)
  {
    var count := c.count + 1;
    Connection(count, if count == 1 then true else c.connected)
  }

  /** `closeDatabase`: one user fewer, clamped at 0; the client is dropped when the counter is 0. */
  function Closed(c: Connection): (r: Connection)
    ensures r.count >= 0
    ensures c.count >= 1 ==> r.count == c.count - 1
    ensures c.count < 1 ==> r.count == 0
    ensures r.connected <==> c.connected && r.count != 0
    ensures Consistent(c) ==> Consistent(r)
  {
    var count := if c.count - 1 < 0 then 0 else c.count - 1;
    Connection(count, if count == 0 then false else c.connected)
  }

  /** A call of `openDatabase` or of `closeDatabase`. */
  datatype Call = Open | Close

  /** The connection state after the calls, in order. */
  function Replay(c: Connection, calls: seq<Call>): Connection
    decreases |calls|
  {
    if calls == [] then c
    else Replay(if calls[0] == Open then Opened(c) else Closed(c), calls[1..])
  }

  /** How many of the calls are opens, minus how many are closes. */
  function Net(calls: seq<Call>): int
    decreases |calls|
  {
    if calls == [] then 0 else (if calls[0] == Open then 1 else -1) + Net(calls[1..])
  }

  /** Every call sequence keeps the invariant. */
  lemma {:induction false} ReplayConsistent(c: Connection, calls: seq<Call>)
    requires Consistent(c)
    ensures Consistent(Replay(c, calls))
    decreases |calls|
  {
    if calls != [] {
      ReplayConsistent(if calls[0] == Open then Opened(c) else Closed(c), calls[1..]);
    }
  }

  /** From the initial state (counter 0, no client), any call sequence ends with a client exactly
      when the counter is positive. */
  lemma FromIdle(calls: seq<Call>)
    ensures Consistent(Replay(Connection(0, false), calls))
  {
    ReplayConsistent(Connection(0, false), calls);
  }

  /** When no prefix closes more often than it opens, the counter is the number of opens minus the
      number of closes: the clamp never fires. */
  lemma {:induction false} ReplayCounts(c: Connection, calls: seq<Call>)
    requires c.count >= 0
    requires forall k :: 0 <= k <= |calls| ==> c.count + Net(calls[..k]) >= 0
    ensures Replay(c, calls).count == c.count + Net(calls)
    decreases |calls|
  {
    if calls != [] {
      var c' := if calls[0] == Open then Opened(c) else Closed(c);
      assert calls[..1] == [calls[0]];
      assert Net(calls[..1]) == (if calls[0] == Open then 1 else -1) by {
        assert calls[..1][1..] == [];
      }
      assert c'.count == c.count + Net(calls[..1]);
      forall k | 0 <= k <= |calls[1..]|
        ensures c'.count + Net(calls[1..][..k]) >= 0
      {
        assert calls[..k + 1][1..] == calls[1..][..k];
        assert c.count + Net(calls[..k + 1]) >= 0;
      }
      ReplayCounts(c', calls[1..]);
    }
  }

  /** An open followed by a close gives back the state the adapter was in. */
  lemma OpenThenClose(c: Connection)
    requires Consistent(c)
    ensures Closed(Opened(c)) == c
  {
  }

  // ---------------------------------------------------------------------------------------------
  // Projects

  /** `createProject(id)`: adds a project node when none has the id. */
  function Create(projects: set<string>, open: bool, id: string): (r: (set<string>, Result<string, Error>))
    ensures !open ==> r == (projects, Failure(DatabaseNotOpen))
    ensures open && id in projects ==> r == (projects, Failure(ProjectAlreadyExists(id)))
    ensures open && id !in projects ==> r == (projects + {id}, Success(id))
  {
    if !open then (projects, Failure(DatabaseNotOpen))
    else if id !in projects then (projects + {id}, Success(id))
    else (projects, Failure(ProjectAlreadyExists(id)))
  }

  /** `openProject(id)`: the project when a node has the id. */
  function Find(projects: set<string>, open: bool, id: string): (r: Result<string, Error>)
    ensures !open ==> r == Failure(DatabaseNotOpen)
    ensures open ==> (r.Success? <==> id in projects)
    ensures r.Success? ==> r.value == id
    ensures open && id !in projects ==> r == Failure(ProjectDoesNotExist(id))
  {
    if !open then Failure(DatabaseNotOpen)
    else if id in projects then Success(id)
    else Failure(ProjectDoesNotExist(id))
  }

  /** `deleteProject(id)`: removes the nodes with the id; resolves `true` when there was one. */
  function Delete(projects: set<string>, open: bool, id: string): (r: (set<string>, Result<bool, Error>))
    ensures !open ==> r == (projects, Failure(DatabaseNotOpen))
    ensures open ==> r.0 == projects - {id}
    ensures open ==> (r.1.Success? <==> id in projects)
    ensures r.1.Success? ==> r.1.value
    ensures open && id !in projects ==> r.1 == Failure(NothingDeleted)
  {
    if !open then (projects, Failure(DatabaseNotOpen))
    else
      var removed := if id in projects then 1 else 0;
      (projects - {id}, if removed > 0 then Success(true) else Failure(NothingDeleted))
  }

  /** `renameProject(id, newId)`: moves the project to a free new id. A missing `id` is reported
      first, as the key rename does. */
  function Rename(projects: set<string>, open: bool, id: string, newId: string): (r: (set<string>, Result<(), Error>))
    ensures r.1.Failure? ==> r.0 == projects
    ensures !open ==> r.1 == Failure(DatabaseNotOpen)
    ensures open && id !in projects ==> r.1 == Failure(ProjectDoesNotExist(id))
    ensures open && id in projects && newId in projects ==> r.1 == Failure(ProjectAlreadyExists(newId))
    ensures r.1.Success? <==> open && id in projects && newId !in projects
    ensures r.1.Success? ==> r.0 == projects - {id} + {newId} && id !in r.0 && newId in r.0
  {
    if !open then (projects, Failure(DatabaseNotOpen))
    else if id !in projects then (projects, Failure(ProjectDoesNotExist(id)))
    else if newId in projects then (projects, Failure(ProjectAlreadyExists(newId)))
    else (projects - {id} + {newId}, Success(()))
  }

  /** A created project can be opened. */
  lemma CreateThenOpen(projects: set<string>, id: string)
    ensures var (after, r) := Create(projects, true, id);
      Find(after, true, id) == Success(id)
  {
  }

  /** Creating a new project and deleting it again gives back the projects there were. */
  lemma CreateThenDelete(projects: set<string>, id: string)
    requires id !in projects
    ensures var after := Create(projects, true, id).0;
      Delete(after, true, id) == (projects, Success(true))
  {
  }

  /** A deleted project can no longer be opened. */
  lemma DeleteThenOpen(projects: set<string>, id: string)
    ensures Find(Delete(projects, true, id).0, true, id) == Failure(ProjectDoesNotExist(id))
  {
  }

  /** After a rename the project opens under its new id and not under its old one, and renaming it
      back gives back the projects there were. */
  lemma RenameThenOpen(projects: set<string>, id: string, newId: string)
    requires Rename(projects, true, id, newId).1.Success?
    ensures var after := Rename(projects, true, id, newId).0;
      && Find(after, true, newId) == Success(newId)
      && Find(after, true, id) == Failure(ProjectDoesNotExist(id))
      && Rename(after, true, newId, id) == (projects, Success(()))
  {
    var after := Rename(projects, true, id, newId).0;
    assert after - {newId} + {id} == projects;
  }

  // ---------------------------------------------------------------------------------------------
  // The adapter object

  /** The adapter: its connection counter and client, and the project nodes of the database it
      talks to. */
  class Adapter {
    var connectionCnt: int
    var client: Client?
    var projects: set<string>

    ghost function State(): Connection
      reads this
    {
      Connection(connectionCnt, client != null)
    }

    ghost predicate Valid()
      reads this
    {
      Consistent(State())
    }

    constructor (projects: set<string>)
      ensures Valid()
      ensures connectionCnt == 0 && client == null && this.projects == projects
    {
      connectionCnt := 0;
      client := null;
      this.projects := projects;
    }

    /** `openDatabase`: counts one more user and connects on the first one. */
    method OpenDatabase()
      requires Valid()
      modifies this`connectionCnt, this`client
      ensures Valid()
      ensures State() == Opened(old(State()))
      ensures old(client) == null ==> fresh(client)
      ensures old(client) != null ==> client == old(client)
    {
      connectionCnt := connectionCnt + 1;
      if connectionCnt == 1 {
        if client == null {
          client := new Client();
        }
      }
    }

    /** `closeDatabase`: counts one user fewer, never below 0, and disconnects at 0. */
    method CloseDatabase()
      requires Valid()
      modifies this`connectionCnt, this`client
      ensures Valid()
      ensures State() == Closed(old(State()))
      ensures connectionCnt != 0 ==> client == old(client)
    {
      connectionCnt := connectionCnt - 1;
      if connectionCnt < 0 {
        connectionCnt := 0;
      }
      if connectionCnt == 0 {
        if client != null {
          client := null;
        }
      }
    }

    /** `createProject(id)`. */
    method CreateProject(id: string) returns (r: Result<string, Error>)
      modifies this`projects
      ensures (projects, r) == Create(old(projects), client != null, id)
    {
      if client == null {
        return Failure(DatabaseNotOpen);
      }
      // read the nodes with the id, and insert one when there is none
      if id !in projects {
        projects := projects + {id};
        r := Success(id);
      } else {
        r := Failure(ProjectAlreadyExists(id));
      }
    }

    /** `openProject(id)`. */
    method OpenProject(id: string) returns (r: Result<string, Error>)
      ensures r == Find(projects, client != null, id)
    {
      if client == null {
        return Failure(DatabaseNotOpen);
      }
      if id in projects {
        r := Success(id);
      } else {
        r := Failure(ProjectDoesNotExist(id));
      }
    }

    /** `deleteProject(id)`. */
    method DeleteProject(id: string) returns (r: Result<bool, Error>)
      modifies this`projects
      ensures (projects, r) == Delete(old(projects), client != null, id)
    {
      if client == null {
        return Failure(DatabaseNotOpen);
      }
      var removed := if id in projects then 1 else 0;
      projects := projects - {id};
      if removed > 0 {
        r := Success(true);
      } else {
        r := Failure(NothingDeleted);
      }
    }

    /** `renameProject(id, newId)`. */
    method RenameProject(id: string, newId: string) returns (r: Result<(), Error>)
      modifies this`projects
      ensures (projects, r) == Rename(old(projects), client != null, id, newId)
    {
      if client == null {
        return Failure(DatabaseNotOpen);
      }
      // renamenx: fails on a missing key, refuses a taken new key
      if id !in projects {
        r := Failure(ProjectDoesNotExist(id));
      } else if newId in projects {
        r := Failure(ProjectAlreadyExists(newId));
      } else {
        projects := projects - {id} + {newId};
        r := Success(());
      }
    }
  }
}
