/** A session against a fresh table, with mixed-case command names and no failing statement. */
module Session {
  import opened Wrappers
  import opened Wire
  import opened Commands
  import opened Store
  import opened Dispatcher
  import opened Properties

  /** Write, read and overwrite one key. */
  method ExampleSession() returns (replies: seq<Reply>)
    ensures replies == [Null, Status(Wire.Ok), Bulk("v1"), Status(Wire.Ok), Bulk("v2")]
  {
    var t := new FieldTable();
    LowerOfLowerCase("get");
    LowerOfLowerCase("set");
    assert Lower("SET") == "set" && Lower("Get") == "get";

    GetReads(["get", "k"], t.rows, [], "");
    var r0, _ := Handle(t, ["get", "k"], [], "");
    SetUpserts(["SET", "k", "v1"], t.rows, [], "");
    var r1, _ := Handle(t, ["SET", "k", "v1"], [], "");
    GetReads(["Get", "k"], t.rows, [], "");
    var r2, _ := Handle(t, ["Get", "k"], [], "");
    SetUpserts(["set", "k", "v2", "ignored"], t.rows, [], "");
    var r3, _ := Handle(t, ["set", "k", "v2", "ignored"], [], "");
    GetReads(["get", "k"], t.rows, [], "");
    var r4, _ := Handle(t, ["get", "k"], [], "");
    replies := [r0, r1, r2, r3, r4];
  }

  /** Delete a key named twice, then read it back; a SET without its value is refused. */
  method ExampleDelete() returns (replies: seq<Reply>)
    ensures replies == [Status(Wire.Ok), Int(1), Null, Error(WrongArgs)]
  {
    var t := new FieldTable();
    LowerOfLowerCase("get");
    LowerOfLowerCase("set");
    LowerOfLowerCase("del");
    assert Lower("DEL") == "del";

    SetUpserts(["set", "k", "v"], t.rows, [], "");
    var r0, _ := Handle(t, ["set", "k", "v"], [], "");
    DelTwo(["DEL", "k", "k"], t.rows, "");
    DelCounts(["DEL", "k", "k"], t.rows, [], "");
    var r1, _ := Handle(t, ["DEL", "k", "k"], [], "");
    GetReads(["get", "k"], t.rows, [], "");
    var r2, _ := Handle(t, ["get", "k"], [], "");
    ArityErrors(["set", "k"], t.rows, [], "");
    var r3, _ := Handle(t, ["set", "k"], [], "");
    replies := [r0, r1, r2, r3];
  }
}
