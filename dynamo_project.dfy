/** The per-project store of the DynamoDB storage backend: an object table keyed by hash and a
    branch map from branch name to commit hash. Each backend call (`getItem`, `putItem`, `hget`,
    `hset`, `hsetnx`, `hdel`, `hgetall`) is one atomic step on a map. */
module Dynamo {
  import opened Wrappers
  import Js

  /** A stored project object: its `_id` field and, in `body`, the canonical serialisation of all
      its other fields, so that two documents are canonically equal exactly when they are equal. */
  datatype Document = Document(id: Js.Value, body: string)

  /** The argument of `insertObject`: `null`, a value whose `typeof` is not `'object'`, or an object. */
  datatype Arg = Null | Primitive(tag: nat) | Obj(doc: Document)

  /** The rejections of the project operations. */
  datatype Error =
    | HashNotString            // loadObject - given hash is not a string
    | InvalidHash(hash: string) // loadObject - invalid hash
    | ObjectDoesNotExist(hash: string)
    | NotAnObject
    | IdNotValidHash           // object._id is not a valid hash.
    | ExistingNotEqual(id: string) // tried to insert existing hash - the two objects were NOT equal
    | BranchHashMismatch

  type Objects = map<string, Document>
  type Branches = map<string, string>

  /** `''` stands for an absent branch, so no branch is ever stored with the empty hash. */
  ghost predicate NoEmptyHash(branches: Branches) {
    forall b :: b in branches ==> branches[b] != ""
  }

  /** What `hget` answers for `branch`, with a missing field read as `''`. */
  function HashOf(branches: Branches, branch: string): string {
    if branch in branches then branches[branch] else ""
  }

  // ---------------------------------------------------------------------------------------------
  // Objects

  /** The format checks `loadObject` makes before it reads the table. */
  function CheckHash(validHash: string -> bool, hash: Js.Value): (r: Result<string, Error>)
    ensures r.Success? <==> hash.Str? && validHash(hash.s)
    ensures r.Success? ==> r.value == hash.s
    ensures hash.NonString? ==> r == Failure(HashNotString)
    ensures hash.Str? && !validHash(hash.s) ==> r == Failure(InvalidHash(hash.s))
  {
    if !hash.Str? then Failure(HashNotString)
    else if !validHash(hash.s) then Failure(InvalidHash(hash.s))
    else Success(hash.s)
  }

  /** `loadObject(hash)`: the stored document, or the reason there is none. */
  function Load(objects: Objects, validHash: string -> bool, hash: Js.Value): (r: Result<Document, Error>)
    ensures r.Success? <==> CheckHash(validHash, hash).Success? && hash.s in objects
    ensures r.Success? ==> r.value == objects[hash.s]
    ensures CheckHash(validHash, hash).Failure? ==> r == Failure(CheckHash(validHash, hash).error)
    ensures CheckHash(validHash, hash).Success? && hash.s !in objects ==> r == Failure(ObjectDoesNotExist(hash.s))
  {
    match CheckHash(validHash, hash)
    case Failure(e) => Failure(e)
    case Success(h) => if h in objects then Success(objects[h]) else Failure(ObjectDoesNotExist(h))
  }

  /** The checks `insertObject` makes before it writes; on success, the id to store under. */
  function CheckObject(validHash: string -> bool, arg: Arg): (r: Result<string, Error>)
    ensures r.Success? <==> arg.Obj? && arg.doc.id.Str? && validHash(arg.doc.id.s)
    ensures r.Success? ==> r.value == arg.doc.id.s
    ensures !arg.Obj? ==> r == Failure(NotAnObject)
    ensures arg.Obj? && r.Failure? ==> r == Failure(IdNotValidHash)
  {
    match arg
    case Null => Failure(NotAnObject)
    case Primitive(_) => Failure(NotAnObject)
    case Obj(d) => if d.id.Str? && validHash(d.id.s) then Success(d.id.s) else Failure(IdNotValidHash)
  }

  /** `insertObject(arg)`: the table after the call, and the outcome. A conditional put that finds
      the id taken returns the stored item; equal items count as success, different ones as an error. */
  function Insert(objects: Objects, validHash: string -> bool, arg: Arg): (r: (Objects, Result<(), Error>))
    ensures r.1.Failure? ==> r.0 == objects
    ensures forall h :: h in objects ==> h in r.0 && r.0[h] == objects[h]
    ensures CheckObject(validHash, arg).Failure? ==> r.1 == Failure(CheckObject(validHash, arg).error)
    ensures CheckObject(validHash, arg).Success? ==> var id := arg.doc.id.s;
      && r.0 == (if id in objects then objects else objects[id := arg.doc])
      && r.1 == (if id !in objects || objects[id] == arg.doc then Success(()) else Failure(ExistingNotEqual(id)))
  {
    match CheckObject(validHash, arg)
    case Failure(e) => (objects, Failure(e))
    case Success(id) =>
      if id !in objects then (objects[id := arg.doc], Success(()))
      else if objects[id] == arg.doc then (objects, Success(()))
      else (objects, Failure(ExistingNotEqual(id)))
  }

  /** A hash that fails the format check is rejected the same way whatever the table holds. */
  lemma LoadChecksFirst(a: Objects, b: Objects, validHash: string -> bool, hash: Js.Value)
    requires !(hash.Str? && validHash(hash.s))
    ensures Load(a, validHash, hash).Failure?
    ensures Load(a, validHash, hash) == Load(b, validHash, hash)
  {
  }

  /** An argument that fails the object checks is rejected the same way whatever the table holds,
      and the table is left as it was. */
  lemma InsertChecksFirst(a: Objects, b: Objects, validHash: string -> bool, arg: Arg)
    requires !(arg.Obj? && arg.doc.id.Str? && validHash(arg.doc.id.s))
    ensures Insert(a, validHash, arg).0 == a
    ensures Insert(a, validHash, arg).1.Failure?
    ensures Insert(a, validHash, arg).1 == Insert(b, validHash, arg).1
  {
  }

  /** After a successful insert, loading the object's id gives the object back. */
  lemma InsertThenLoad(objects: Objects, validHash: string -> bool, d: Document)
    ensures Insert(objects, validHash, Obj(d)).1.Success? ==>
      Load(Insert(objects, validHash, Obj(d)).0, validHash, d.id) == Success(d)
  {
    var r := Insert(objects, validHash, Obj(d));
    if r.1.Success? {
      assert CheckObject(validHash, Obj(d)).Success?;
      assert d.id.s in r.0 && r.0[d.id.s] == d;
    }
  }

  /** A valid object under a fresh id is always accepted. */
  lemma InsertFresh(objects: Objects, validHash: string -> bool, d: Document)
    requires d.id.Str? && validHash(d.id.s) && d.id.s !in objects
    ensures Insert(objects, validHash, Obj(d)) == (objects[d.id.s := d], Success(()))
  {
  }

  /** Inserting under a taken id never changes the table; it succeeds exactly when the stored
      object equals the new one. */
  lemma InsertExisting(objects: Objects, validHash: string -> bool, d: Document)
    requires d.id.Str? && validHash(d.id.s) && d.id.s in objects
    ensures Insert(objects, validHash, Obj(d)).0 == objects
    ensures Insert(objects, validHash, Obj(d)).1.Success? <==> objects[d.id.s] == d
  {
  }

  /** Repeating an insert changes nothing: the second call succeeds on the table the first left. */
  lemma InsertIdempotent(objects: Objects, validHash: string -> bool, arg: Arg)
    ensures var (t, r) := Insert(objects, validHash, arg);
      r.Success? ==> Insert(t, validHash, arg) == (t, Success(()))
  {
  }

  // ---------------------------------------------------------------------------------------------
  // Branches

  /** `setBranchHash(branch, oldHash, newHash)`: the branch map after the call, and the outcome.
      The four cases are the four backend calls the source chooses between. */
  function SetBranch(branches: Branches, branch: string, oldHash: string, newHash: string): (r: (Branches, Result<(), Error>))
    ensures r.1.Failure? ==> r.1 == Failure(BranchHashMismatch) && r.0 == branches
    ensures r.0 - {branch} == branches - {branch}
    ensures oldHash == newHash ==> r.0 == branches && (r.1.Success? <==> HashOf(branches, branch) == oldHash)
    ensures oldHash != newHash && newHash == "" ==>
      (r.1.Success? <==> branch in branches && branches[branch] == oldHash) &&
      (r.1.Success? ==> r.0 == branches - {branch})
    ensures oldHash != newHash && oldHash == "" && newHash != "" ==>
      (r.1.Success? <==> branch !in branches) &&
      (r.1.Success? ==> r.0 == branches[branch := newHash])
    ensures oldHash != newHash && oldHash != "" && newHash != "" ==>
      (r.1.Success? <==> branch in branches && branches[branch] == oldHash) &&
      (r.1.Success? ==> r.0 == branches[branch := newHash])
  {
    if oldHash == newHash then
      // hget, and compare with a missing field read as ''
      (branches, if HashOf(branches, branch) == oldHash then Success(()) else Failure(BranchHashMismatch))
    else if newHash == "" then
      // hget, then hdel when the stored value is the expected one
      if branch in branches && branches[branch] == oldHash then (branches - {branch}, Success(()))
      else (branches, Failure(BranchHashMismatch))
    else if oldHash == "" then
      // hsetnx: sets the field only when it is new
      if branch !in branches then (branches[branch := newHash], Success(()))
      else (branches, Failure(BranchHashMismatch))
    else
      // hget, then hset when the stored value is the expected one
      if branch in branches && branches[branch] == oldHash then (branches[branch := newHash], Success(()))
      else (branches, Failure(BranchHashMismatch))
  }

  /** As long as no branch is stored with the empty hash, the four cases of `SetBranch` are one
      compare-and-swap on the view where `''` means absent: it succeeds exactly when the branch
      currently reads `oldHash`, afterwards it reads `newHash`, every other branch reads as before,
      and still no branch is stored with the empty hash. */
  lemma SetBranchIsCompareAndSwap(branches: Branches, branch: string, oldHash: string, newHash: string)
    requires NoEmptyHash(branches)
    ensures var (after, r) := SetBranch(branches, branch, oldHash, newHash);
      && (r.Success? <==> HashOf(branches, branch) == oldHash)
      && (r.Success? ==> HashOf(after, branch) == newHash)
      && (forall b :: b != branch ==> HashOf(after, b) == HashOf(branches, b))
      && NoEmptyHash(after)
  {
    var (after, r) := SetBranch(branches, branch, oldHash, newHash);
    forall b | b != branch
      ensures HashOf(after, b) == HashOf(branches, b)
    {
      assert b in after <==> b in after - {branch};
      assert b in branches <==> b in branches - {branch};
    }
  }

  /** A successful swap from `h1` to `h2` followed by one from `h2` back to `h1` restores the view. */
  lemma SetBranchUndo(branches: Branches, branch: string, h1: string, h2: string)
    requires NoEmptyHash(branches)
    requires SetBranch(branches, branch, h1, h2).1.Success?
    ensures var after := SetBranch(branches, branch, h1, h2).0;
      && SetBranch(after, branch, h2, h1).1.Success?
      && forall b :: HashOf(SetBranch(after, branch, h2, h1).0, b) == HashOf(branches, b)
  {
    SetBranchIsCompareAndSwap(branches, branch, h1, h2);
    var after := SetBranch(branches, branch, h1, h2).0;
    SetBranchIsCompareAndSwap(after, branch, h2, h1);
  }

  // ---------------------------------------------------------------------------------------------
  // The project object

  /** One project of the store: its object table and its branch map. `validHash` is the hash
      format check the source takes from its shared regular expressions. */
  class DynamoProject {
    const projectId: string
    const validHash: string -> bool
    var objects: Objects
    var branches: Branches

    ghost predicate Valid()
      reads this
    {
      NoEmptyHash(branches)
    }

    constructor (projectId: string, validHash: string -> bool, objects: Objects, branches: Branches)
      requires NoEmptyHash(branches)
      ensures Valid()
      ensures this.projectId == projectId && this.validHash == validHash
      ensures this.objects == objects && this.branches == branches
    {
      this.projectId := projectId;
      this.validHash := validHash;
      this.objects := objects;
      this.branches := branches;
    }

    /** `loadObject(hash)`: rejects a non-string or ill-formed hash before reading the table. */
    method LoadObject(hash: Js.Value) returns (r: Result<Document, Error>)
      ensures r == Load(objects, validHash, hash)
    {
      if !hash.Str? {
        return Failure(HashNotString);
      }
      if !validHash(hash.s) {
        return Failure(InvalidHash(hash.s));
      }
      // getItem
      if hash.s in objects {
        r := Success(objects[hash.s]);
      } else {
        r := Failure(ObjectDoesNotExist(hash.s));
      }
    }

    /** `insertObject(arg)`: a conditional put that never overwrites a stored object. */
    method InsertObject(arg: Arg) returns (r: Result<(), Error>)
      modifies this`objects
      ensures (objects, r) == Insert(old(objects), validHash, arg)
    {
      if arg.Null? || arg.Primitive? {
        return Failure(NotAnObject);
      }
      var d := arg.doc;
      if !d.id.Str? || !validHash(d.id.s) {
        return Failure(IdNotValidHash);
      }
      // putItem with attribute_not_exists(ID), returning the old item
      var existing: Option<Document> := if d.id.s in objects then Some(objects[d.id.s]) else None;
      if existing == None {
        objects := objects[d.id.s := d];
        r := Success(());
      } else if existing.value == d {
        r := Success(());
      } else {
        r := Failure(ExistingNotEqual(d.id.s));
      }
    }

    /** `getBranches()`: every branch with its hash; the empty map when there is none. */
    method GetBranches() returns (r: Branches)
      requires Valid()
      ensures r == branches
      ensures forall b :: b in r ==> r[b] == HashOf(branches, b) && r[b] != ""
    {
      r := branches;
    }

    /** `getBranchHash(branch)`: the branch's hash, or `''` when it does not exist. */
    method GetBranchHash(branch: string) returns (h: string)
      requires Valid()
      ensures h == "" <==> branch !in branches
      ensures branch in branches ==> h == branches[branch]
    {
      if branch in branches {
        h := branches[branch];
      } else {
        h := "";
      }
    }

    /** `setBranchHash(branch, oldHash, newHash)`: compare-and-swap on the branch map. */
    method SetBranchHash(branch: string, oldHash: string, newHash: string) returns (r: Result<(), Error>)
      requires Valid()
      modifies this`branches
      ensures Valid()
      ensures (branches, r) == SetBranch(old(branches), branch, oldHash, newHash)
    {
      SetBranchIsCompareAndSwap(branches, branch, oldHash, newHash);
      var current := HashOf(branches, branch);
      if oldHash == newHash {
        r := if current == oldHash then Success(()) else Failure(BranchHashMismatch);
      } else if newHash == "" {
        if branch in branches && branches[branch] == oldHash {
          branches := branches - {branch};
          r := Success(());
        } else {
          r := Failure(BranchHashMismatch);
        }
      } else if oldHash == "" {
        if branch !in branches {
          branches := branches[branch := newHash];
          r := Success(());
        } else {
          r := Failure(BranchHashMismatch);
        }
      } else {
        if branch in branches && branches[branch] == oldHash {
          branches := branches[branch := newHash];
          r := Success(());
        } else {
          r := Failure(BranchHashMismatch);
        }
      }
    }
  }
}
