/** Log entries, commands, state-machine state, and the JSON blobs in which the stores keep them. */
module RaftTypes {
  import opened Wrappers
  import opened Bytes

  datatype LogId = LogId(term: nat, leader: string, index: u64)

  datatype Membership = Membership(configs: seq<set<string>>, nodes: map<string, string>)

  datatype StoredMembership = StoredMembership(logId: Option<LogId>, membership: Membership)

  datatype RaftCommand =
    | RegisterJob(jobId: string, nodeId: string, runtime: string, createdAt: string)
    | UpdateJobStatus(jobId: string, status: string, nodeId: string)
    | AddMember(nodeId: string, grpcEndpoint: string)
    | RemoveMember(nodeId: string)
    | StoreEnrollToken(token: string, expiresAt: string, issuedBy: string)
    | ConsumeEnrollToken(token: string)

  datatype Payload = Blank | Normal(cmd: RaftCommand) | Config(members: Membership)

  datatype Entry = Entry(logId: LogId, payload: Payload)

  datatype Response = Response(success: bool, error: Option<string>, data: Option<string>)

  datatype RegisteredJob = RegisteredJob(
    jobId: string, nodeId: string, runtime: string, status: string, createdAt: string, updatedAt: string)

  datatype EnrollToken = EnrollToken(token: string, issuedBy: string, expiresAt: string, used: bool)

  datatype RaftState = RaftState(
    lastApplied: Option<LogId>,
    lastMembership: StoredMembership,
    jobs: map<string, RegisteredJob>,
    tokens: map<string, EnrollToken>)

  const DEFAULT_STATE: RaftState := RaftState(None, StoredMembership(None, Membership([], map[])), map[], map[])

  /** What serde_json writes: each constructor is an injective encoder, and a reader of one shape rejects the others. */
  datatype Json =
    EntryJson(entry: Entry) | LogIdJson(logId: LogId) | StateJson(state: RaftState) | Garbled(text: string)

  datatype StorageError = LogsRead | LogsWrite | StateMachineRead | StateMachineWrite
}
