/**
 * The command table of the dispatcher: lower-casing of the command name, the
 * case each name selects, and the least number of arguments each case needs.
 */
module Commands {

  /** The cases of the dispatcher's switch, plus its default case. */
  datatype Command =
    | Ping
    | Echo
    | Flush     // flushdb, flushall
    | Begin
    | Del
    | Finish    // commit, rollback, end, abort: forwarded verbatim
    | Set
    | Get
    | Unknown   // the default case

  /**
   * The lower-case names of each case. This is the table the dispatcher
   * implements; `Classify` is checked against it.
   */
  function Names(c: Command): set<string>
  {
    match c
    case Ping => {"ping"}
    case Echo => {"echo"}
    case Flush => {"flushdb", "flushall"}
    case Begin => {"begin"}
    case Del => {"del"}
    case Finish => {"commit", "rollback", "end", "abort"}
    case Set => {"set"}
    case Get => {"get"}
    case Unknown => {}
  }

  /**
   * The lower case of one character, as far as matching against the command
   * names can tell: ASCII upper-case letters, and the two non-ASCII letters
   * (U+0130 and the Kelvin sign U+212A) whose lower case is an ASCII letter.
   * Every other character is kept; its lower case is itself or a character
   * outside ASCII, so keeping it changes no match.
   */
  function LowerChar(c: char): char
  {
    if 'A' <= c <= 'Z' then (c as int + 32) as char
    else if c == '\U{0130}' then 'i'
    else if c == '\U{212A}' then 'k'
    else c
  }

  /** The command name lower-cased character by character. */
  function Lower(s: string): (r: string)
    ensures |r| == |s|
  {
    if s == [] then [] else [LowerChar(s[0])] + Lower(s[1..])
  }

  /** Each character of the lower-cased name is its own character lower-cased. */
  lemma {:induction false} LowerAt(s: string, i: nat)
    requires i < |s|
    ensures Lower(s)[i] == LowerChar(s[i])
  {
    if i > 0 {
      LowerAt(s[1..], i - 1);
    }
  }

  /** Lower-casing twice is lower-casing once. */
  lemma {:induction false} LowerIdempotent(s: string)
    ensures Lower(Lower(s)) == Lower(s)
  {
    if s != [] {
      LowerIdempotent(s[1..]);
      assert Lower(s)[1..] == Lower(s[1..]);
    }
  }

  /** A name with no upper-case letter in it is its own lower case. */
  lemma LowerOfLowerCase(s: string)
    requires forall i :: 0 <= i < |s| ==> LowerChar(s[i]) == s[i]
    ensures Lower(s) == s
  {
    forall i | 0 <= i < |s| ensures Lower(s)[i] == s[i] {
      LowerAt(s, i);
    }
  }

  /**
   * The switch on the lower-cased command name: the case whose names hold
   * it, and Unknown exactly when no case does.
   */
  function Classify(name: string): (c: Command)
    ensures forall k: Command :: Lower(name) in Names(k) <==> c != Unknown && k == c
  {
    var n := Lower(name);
    if n == "ping" then Ping
    else if n == "echo" then Echo
    else if n == "flushdb" || n == "flushall" then Flush
    else if n == "begin" then Begin
    else if n == "del" then Del
    else if n == "commit" || n == "rollback" || n == "end" || n == "abort" then Finish
    else if n == "set" then Set
    else if n == "get" then Get
    else Unknown
  }

  /**
   * The least request length (command name included) each case accepts;
   * a shorter request is answered with the arity error. The cases without
   * an arity check accept any request, which always holds its name.
   */
  function MinArgs(c: Command): (n: nat)
    ensures n >= 1
  {
    match c
    case Echo => 2
    case Get => 2
    case Del => 2
    case Set => 3
    case _ => 1
  }

  /** The name is matched without regard to case. */
  lemma ClassifyIgnoresCase(a: string, b: string)
    requires Lower(a) == Lower(b)
    ensures Classify(a) == Classify(b)
  {
  }

  /** A name and its lower case select the same case. */
  lemma ClassifyLower(name: string)
    ensures Classify(Lower(name)) == Classify(name)
  {
    LowerIdempotent(name);
  }
}
