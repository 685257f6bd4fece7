/** The wire records of the sync protocol. */
module Protocol {
  datatype Option<+T> = None | Some(value: T)

  /** A UTC instant; RFC 3339 text round trips are taken as the identity. */
  type Time = int

  function MaxTime(a: Time, b: Time): Time { if a < b then b else a }

  datatype SyncChange = SyncChange(
    id: string,
    title: string,
    content: string,
    category: string,
    createdAt: Time,
    updatedAt: Time,
    deletedAt: Option<Time>,
    contentHash: string,
    deviceId: string)

  datatype RevisionedChange = RevisionedChange(revision: nat, note: SyncChange)

  datatype ChangesResponse = ChangesResponse(revision: nat, changes: seq<RevisionedChange>)

  datatype PushRequest = PushRequest(deviceId: string, changes: seq<SyncChange>)

  datatype PushResponse = PushResponse(revision: nat)

  datatype WaitResponse = WaitResponse(revision: nat, changed: bool)

  /** The instant last-writer-wins compares: the deletion time, or else the update time. */
  function ChangeTime(change: SyncChange): Time {
    match change.deletedAt
    case Some(t) => t
    case None => change.updatedAt
  }
}
