/**
 * The command handler of the server: one request in, one reply out, with
 * the session's table updated through the storage helpers.
 *
 * `Dispatch` is the handler's meaning as a function of the request, the
 * rows before it, the fault inputs of its statements and the tag the
 * backing store reports for a transaction statement. `Handle` is the
 * handler itself, written step by step against a FieldTable, and is proved
 * to produce exactly what `Dispatch` says.
 */
module Dispatcher {
  import opened Wrappers
  import opened Wire
  import opened Commands
  import opened Store

  /** The reply to one request, the rows after it and the statements it sent, in order. */
  datatype Outcome = Outcome(reply: Reply, rows: Rows, issued: seq<Stmt>)

  /**
   * An outcome preceded by statements that were sent before it. The ensures
   * only spells out the body field by field; it is there to keep the DEL
   * proofs cheap, not as a property.
   */
  function Prepend(stmts: seq<Stmt>, o: Outcome): (r: Outcome)
    ensures r.reply == o.reply && r.rows == o.rows && r.issued == stmts + o.issued
  {
    Outcome(o.reply, o.rows, stmts + o.issued)
  }

  /**
   * The keys of a DEL deleted one by one, left to right, the first lookup
   * being statement number `next`, after `count` deletions already counted.
   * A statement failure ends the command with its error text.
   */
  function DelLoop(keys: seq<string>, rows: Rows, faults: seq<Option<string>>, next: nat, count: nat): (o: Outcome)
    ensures o.reply.Int? || o.reply.Error?
    ensures o.reply.Int? ==> count <= o.reply.n <= count + |keys|
    decreases |keys|
  {
    if keys == [] then Outcome(Int(count), rows, [])
    else
      var s := DelKeyOn(rows, keys[0], FaultAt(faults, next), FaultAt(faults, next + 1));
      if s.err.Some? then Outcome(Error(s.err.value), s.rows, s.issued)
      else Prepend(s.issued, DelLoop(keys[1..], s.rows, faults, next + |s.issued|, count + if s.deleted then 1 else 0))
  }

  /** A DEL part-way through its keys, after the delkey of key i succeeded. */
  lemma DelLoopAdvance(keys: seq<string>, i: nat, rows: Rows, faults: seq<Option<string>>, next: nat, count: nat,
                       done: seq<Stmt>, total: Outcome, s: DelStep)
    requires i < |keys| && total == Prepend(done, DelLoop(keys[i..], rows, faults, next, count))
    requires s == DelKeyOn(rows, keys[i], FaultAt(faults, next), FaultAt(faults, next + 1)) && s.err.None?
    ensures total == Prepend(done + s.issued, DelLoop(keys[i + 1..], s.rows, faults, next + |s.issued|, count + if s.deleted then 1 else 0))
  {
    assert keys[i..][0] == keys[i] && keys[i..][1..] == keys[i + 1..];
  }

  /** A DEL part-way through its keys, after the delkey of key i failed. */
  lemma DelLoopStop(keys: seq<string>, i: nat, rows: Rows, faults: seq<Option<string>>, next: nat, count: nat,
                    done: seq<Stmt>, total: Outcome, s: DelStep)
    requires i < |keys| && total == Prepend(done, DelLoop(keys[i..], rows, faults, next, count))
    requires s == DelKeyOn(rows, keys[i], FaultAt(faults, next), FaultAt(faults, next + 1)) && s.err.Some?
    ensures total == Outcome(Error(s.err.value), s.rows, done + s.issued)
  {
    assert keys[i..][0] == keys[i];
  }

  /**
   * The handler's meaning. The name selects the case without regard to
   * case; the arity check comes before any statement; each case sends its
   * statements and picks its reply kind.
   */
  function Dispatch(args: seq<string>, rows: Rows, faults: seq<Option<string>>, tag: string): (o: Outcome)
    requires |args| >= 1
    ensures o.issued == [] ==> o.rows == rows
    ensures o.reply.Error? && o.issued == [] ==> o.reply.msg == WrongArgs || o.reply.msg == UnknownCommand
  {
    var cmd := Classify(args[0]);
    var f := FaultAt(faults, 0);
    if |args| < MinArgs(cmd) then Outcome(Error(WrongArgs), rows, [])
    else
      match cmd
      case Ping => Outcome(Status(Pong), rows, [])
      case Echo => Outcome(Bulk(args[1]), rows, [])
      case Flush => Outcome(StatusReply(f, Wire.Ok), Run(rows, DeleteAll, f), [DeleteAll])
      case Begin => Outcome(StatusReply(f, tag), rows, [BeginSerializable])
      case Finish => Outcome(StatusReply(f, tag), rows, [Verbatim(args[0])])
      case Set => Outcome(StatusReply(f, Wire.Ok), Run(rows, Upsert(args[1], args[2]), f), [Upsert(args[1], args[2])])
      case Get => Outcome(ValueReply(GetKey(rows, args[1], f)), rows, [SelectValue(args[1])])
      case Del => DelLoop(args[1..], rows, faults, 0, 0)
      case Unknown => Outcome(Error(UnknownCommand), rows, [])
  }

  /**
   * The request handler, against the session's table. `args` is the decoded
   * request, its first element the command name; `faults` and `tag` stand
   * for the backing store's answers to the statements the handler sends.
   */
  method Handle(t: FieldTable, args: seq<string>, faults: seq<Option<string>>, tag: string)
    returns (reply: Reply, ghost issued: seq<Stmt>)
    requires |args| >= 1
    modifies t
    ensures Outcome(reply, t.rows, issued) == Dispatch(args, old(t.rows), faults, tag)
  {
    var cmd := Classify(args[0]);
    if |args| < MinArgs(cmd) {
      return Error(WrongArgs), [];
    }
    match cmd {
      case Ping =>
        reply, issued := Status(Pong), [];
      case Echo =>
        reply, issued := Bulk(args[1]), [];
      case Flush =>
        var err := t.Exec(DeleteAll, FaultAt(faults, 0));
        reply, issued := StatusReply(err, Wire.Ok), [DeleteAll];
      case Begin =>
        var err := t.Exec(BeginSerializable, FaultAt(faults, 0));
        reply, issued := StatusReply(err, tag), [BeginSerializable];
      case Finish =>
        var err := t.Exec(Verbatim(args[0]), FaultAt(faults, 0));
        reply, issued := StatusReply(err, tag), [Verbatim(args[0])];
      case Set =>
        var err := t.SetKey(args[1], args[2], FaultAt(faults, 0));
        reply, issued := StatusReply(err, Wire.Ok), [Upsert(args[1], args[2])];
      case Get =>
        var got := GetKey(t.rows, args[1], FaultAt(faults, 0));
        reply, issued := ValueReply(got), [SelectValue(args[1])];
      case Del =>
        reply, issued := DelKeys(t, args[1..], faults);
      case Unknown =>
        reply, issued := Error(UnknownCommand), [];
    }
  }

  /**
   * The DEL branch of the handler: delete the keys left to right with
   * delkey, counting those it reports deleted, and stop at the first
   * failure with its error text.
   */
  method DelKeys(t: FieldTable, keys: seq<string>, faults: seq<Option<string>>)
    returns (reply: Reply, ghost issued: seq<Stmt>)
    modifies t
    ensures Outcome(reply, t.rows, issued) == DelLoop(keys, old(t.rows), faults, 0, 0)
  {
    ghost var total := DelLoop(keys, t.rows, faults, 0, 0);
    var count := 0;
    var next := 0;
    issued := [];
    assert keys[0..] == keys;
    for i := 0 to |keys|
      invariant next == |issued|
      invariant total == Prepend(issued, DelLoop(keys[i..], t.rows, faults, next, count))
    {
      ghost var before := t.rows;
      var deleted, err, used := t.DelKey(keys[i], FaultAt(faults, next), FaultAt(faults, next + 1));
      ghost var s := DelStep(deleted, err, t.rows, used);
      if err.Some? {
        DelLoopStop(keys, i, before, faults, next, count, issued, total, s);
        return Error(err.value), issued + used;
      }
      DelLoopAdvance(keys, i, before, faults, next, count, issued, total, s);
      issued := issued + used;
      next := next + if deleted then 2 else 1;
      if deleted {
        count := count + 1;
      }
    }
    assert keys[|keys|..] == [];
    reply := Int(count);
  }
}
