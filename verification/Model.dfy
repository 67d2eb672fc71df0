/** The rows, values and errors that every part of the registry shares. */
module Model {

  newtype Byte = b: int | 0 <= b < 256
  type Bytes = seq<Byte>

  /** Nanoseconds since an arbitrary origin. */
  type Time = int

  datatype Option<+T> = None | Some(value: T)

  datatype Error =
    | Unauthenticated
    | InvalidArgument
    | NotFound
    | PermissionDenied
    | Internal

  datatype Result<+T> = Ok(value: T) | Err(error: Error)

  datatype Visibility = Public | Private
  datatype OwnerType = OwnedByUser | OwnedByOrg
  datatype OrgRole = Admin | Member

  datatype User = User(id: string, username: string)
  datatype Org = Org(id: string, name: string)

  datatype Module = Module(
    id: string,
    ownerName: string,
    ownerType: OwnerType,
    name: string,
    visibility: Visibility)

  datatype Commit = Commit(
    id: string,
    moduleId: string,
    storageKey: string,
    createdBy: string,
    createdAt: Time)

  datatype Label = Label(
    id: string,
    moduleId: string,
    name: string,
    commitId: string,
    createdAt: Time,
    updatedAt: Time)

  /** The users, orgs and org_members tables. A user is stored under its primary key and indexed by its
      unique name; an org is stored under its unique name; a membership row under its composite key. */
  datatype Accounts = Accounts(
    users: map<string, User>,
    userIds: map<string, string>,
    orgs: map<string, Org>,
    members: map<(string, string), OrgRole>)
}
