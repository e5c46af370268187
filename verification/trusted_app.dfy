/** The authenticated-variable trusted application, seen from the driver: it reads a
    request from bytes, runs it on the variable store, and writes a result as bytes.
    Sizes follow the convention the driver's comments describe
    (authvars_test/host/edk2_driver/AuthVarsDxe.c:408-416 and :461-467): results are
    measured with the sizeof of their structure, and a reply that does not fit reports
    the size of the buffer that would be needed and writes nothing. */
module TrustedApp {
  import opened Bytes
  import opened VariableStore
  import opened Messages

  datatype Command = VSGetOp | VSGetNextVarOp | VSSetOp | VSQueryInfoOp

  /** resultSize is the value the driver finds in params[2].value.a. */
  datatype Reply = Reply(code: TeecResult, resultSize: u32, output: seq<u8>)

  function Refuse(code: TeecResult): Reply { Reply(code, 0, []) }

  /** TEEC_InvokeCommand: request is the input buffer up to its announced size, and room
      is the announced size of the output buffer. */
  function InvokeCommand(s: Store, command: Command, request: seq<u8>, room: nat): (r: (Store, Reply))
    requires Valid(s)
    ensures |r.1.output| <= room
    ensures r.1.code == ShortBuffer ==> r.0 == s && room < r.1.resultSize
    ensures r.1.code == ShortBuffer ==> command != VSSetOp && command != VSQueryInfoOp
    ensures r.1.code == ShortBuffer && command == VSGetOp ==> GET_RESULT_SIZE < r.1.resultSize
    ensures r.1.code == ShortBuffer && command == VSGetNextVarOp ==>
            NEXT_RESULT_SIZE < r.1.resultSize < NEXT_RESULT_SIZE + 0x1_0000
  {
    match command
    case VSGetOp =>
      var q := ParseNameRequest(request);
      (s, if q.None? then Refuse(BadParameters) else RunGet(s, q.value, room))
    case VSGetNextVarOp =>
      var q := ParseNameRequest(request);
      (s, if q.None? then Refuse(BadParameters) else RunNext(s, q.value, room))
    case VSSetOp =>
      var q := ParseSetRequest(request);
      if q.None? || |q.value.key.name| > 0x7FFE then (s, Refuse(BadParameters))
      else
        var (s', code) := Set(s, q.value.key, q.value.attributes, q.value.data);
        (s', Refuse(code))
    case VSQueryInfoOp =>
      var q := ParseQueryRequest(request);
      (s, if q.None? || room < QUERY_RESULT_SIZE then Refuse(BadParameters) else RunQuery(s))
  }

  function RunGet(s: Store, q: NameRequest, room: nat): (r: Reply)
    requires Valid(s)
    ensures |r.output| <= room
    ensures r.code == ShortBuffer ==> room < r.resultSize && GET_RESULT_SIZE < r.resultSize
  {
    if q.key !in s.vars then Refuse(ItemNotFound)
    else
      EntryFits(s.order, s.vars, q.key);
      var e := s.vars[q.key];
      var need := GET_RESULT_SIZE + |e.data|;
      if need > room then Reply(ShortBuffer, need, [])
      else Reply(Success, need, GetResult(e))
  }

  /** An empty announced name asks for the first key; otherwise the named key must exist. */
  function RunNext(s: Store, q: NameRequest, room: nat): (r: Reply)
    requires Valid(s)
    ensures |r.output| <= room
    ensures r.code == ShortBuffer ==>
            room < r.resultSize && NEXT_RESULT_SIZE < r.resultSize < NEXT_RESULT_SIZE + 0x1_0000
  {
    var cursor := if q.nameSize == 0 then Start else After(q.key);
    if cursor.After? && cursor.key !in s.order then Refuse(BadParameters)
    else
      match Next(s, cursor)
      case None => Refuse(ItemNotFound)
      case Some(k) =>
        assert k in s.vars;
        var need := NEXT_RESULT_SIZE + 2 * (|k.name| + 1);
        if need > room then Reply(ShortBuffer, need, [])
        else Reply(Success, need, NextResult(k))
  }

  function RunQuery(s: Store): (r: Reply)
    requires Valid(s)
    ensures |r.output| == QUERY_RESULT_SIZE && r.code == Success
  {
    LargestFits(s.order, s.vars);
    Reply(Success, QUERY_RESULT_SIZE, QueryResult(s.capacity, Remaining(s), Largest(s.order, s.vars)))
  }

  lemma InvokeKeepsValid(s: Store, command: Command, request: seq<u8>, room: nat)
    requires Valid(s)
    ensures Valid(InvokeCommand(s, command, request, room).0)
  {
    var q := ParseSetRequest(request);
    if command == VSSetOp && q.Some? && |q.value.key.name| <= 0x7FFE {
      SetKeepsValid(s, q.value.key, q.value.attributes, q.value.data);
    }
  }
}
