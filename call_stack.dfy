/**
 * Activation records and the call stack of the interpreter. `Frame` is an
 * activation record as a value and a sequence of frames, innermost last, is
 * the call stack as a value; the classes `ActivationRecord` and `CallStack`
 * are the objects the interpreter creates and mutates, and `Value()` and
 * `Frames()` map them to those values.
 */
module CallStacks {
  import opened Wrappers

  /** `ValueType`: what a program computes. Python floats are not part of this model. */
  datatype Value = Number(n: int) | Str(s: string) | Boolean(b: bool)

  /** `ActivationRecordType`. */
  datatype RecordType = ProgramRecord | FunctionRecord | ProcedureRecord

  /** An activation record as a value: name, type, nesting level and members. */
  datatype Frame = Frame(name: string, recordType: RecordType, nestingLevel: int, members: map<string, Value>)

  /** A new activation record has no members. */
  function NewFrame(name: string, recordType: RecordType, nestingLevel: int): (f: Frame)
    ensures f.name == name && f.recordType == recordType && f.nestingLevel == nestingLevel
    ensures f.members == map[]
  {
    Frame(name, recordType, nestingLevel, map[])
  }

  /** `record[key] = value`: the member is inserted or replaced. */
  function SetMember(f: Frame, key: string, value: Value): (g: Frame)
    ensures g.name == f.name && g.recordType == f.recordType && g.nestingLevel == f.nestingLevel
    ensures g.members.Keys == f.members.Keys + {key} && g.members[key] == value
    ensures forall k | k in f.members && k != key :: g.members[k] == f.members[k]
  {
    f.(members := f.members[key := value])
  }

  /** `get`: the member's value, nothing for a missing key. */
  function GetMember(f: Frame, key: string): (r: Option<Value>)
    ensures r.Some? <==> key in f.members
    ensures r.Some? ==> r.value == f.members[key]
  {
    if key in f.members then Some(f.members[key]) else None
  }

  /** After `record[k] = v`, `get(k)` is `v`; every other key reads as before, and name, type and level are kept. */
  lemma SetThenGet(f: Frame, key: string, value: Value, other: string)
    ensures GetMember(SetMember(f, key, value), key) == Some(value)
    ensures other != key ==> GetMember(SetMember(f, key, value), other) == GetMember(f, other)
    ensures var g := SetMember(f, key, value);
      g.name == f.name && g.recordType == f.recordType && g.nestingLevel == f.nestingLevel
  {
  }

  /** `get` finds nothing exactly for the keys never set. */
  lemma GetMissing(f: Frame, key: string)
    ensures GetMember(f, key).None? <==> key !in f.members
  {
  }

  // ---------------------------------------------------------------------------
  // The stack as a value, innermost frame last
  // ---------------------------------------------------------------------------

  /** `push`: the frame goes on top. */
  function PushFrame(stack: seq<Frame>, f: Frame): (s: seq<Frame>)
    ensures |s| == |stack| + 1 && s[..|stack|] == stack && s[|stack|] == f
  {
    stack + [f]
  }

  /** `pop`: the top frame and the stack below it; popping an empty stack fails (Python's `IndexError`). */
  function PopFrame(stack: seq<Frame>): (r: Option<(Frame, seq<Frame>)>)
    ensures r.None? <==> stack == []
    ensures r.Some? ==> r.value.1 + [r.value.0] == stack
  {
    if stack == [] then None else Some((stack[|stack| - 1], stack[..|stack| - 1]))
  }

  /** `peek`: the top frame; peeking at an empty stack fails as well. */
  function PeekFrame(stack: seq<Frame>): (r: Option<Frame>)
    ensures stack == [] ==> r.None?
    ensures stack != [] ==> r == Some(stack[|stack| - 1])
  {
    if stack == [] then None else Some(stack[|stack| - 1])
  }

  /** Last in, first out: after a push, peek and pop see the pushed frame, and pop gives back the stack as it was. */
  lemma PushThenPop(stack: seq<Frame>, f: Frame)
    ensures PeekFrame(PushFrame(stack, f)) == Some(f)
    ensures PopFrame(PushFrame(stack, f)) == Some((f, stack))
  {
    assert PushFrame(stack, f)[..|stack|] == stack;
  }

  /** Popping and pushing the popped frame back restores the stack. */
  lemma PopThenPush(stack: seq<Frame>)
    requires stack != []
    ensures PopFrame(stack).Some? && PushFrame(PopFrame(stack).value.1, PopFrame(stack).value.0) == stack
  {
  }

  /** Pop and peek fail exactly on the empty stack, and agree on the top frame otherwise. */
  lemma PopAndPeek(stack: seq<Frame>)
    ensures PopFrame(stack).None? <==> stack == []
    ensures PeekFrame(stack).None? <==> stack == []
    ensures PopFrame(stack).Some? ==> PeekFrame(stack) == Some(PopFrame(stack).value.0) && |PopFrame(stack).value.1| == |stack| - 1
  {
  }

  // ---------------------------------------------------------------------------
  // The objects
  // ---------------------------------------------------------------------------

  /** `ActivationRecord`: name, type and level are fixed; the members dictionary is written in place. */
  class ActivationRecord {
    const name: string
    const recordType: RecordType
    const nestingLevel: int
    var members: map<string, Value>

    /** The record as a value. */
    function Value(): Frame
      reads this
    {
      Frame(name, recordType, nestingLevel, members)
    }

    /** A new record keeps the name, type and level it is given and has no members. */
    constructor (name: string, recordType: RecordType, nestingLevel: int)
      ensures Value() == NewFrame(name, recordType, nestingLevel)
    {
      this.name := name;
      this.recordType := recordType;
      this.nestingLevel := nestingLevel;
      members := map[];
    }

    /** `__setitem__`. */
    method Set(key: string, value: Value)
      modifies this
      ensures Value() == SetMember(old(Value()), key, value)
    {
      members := members[key := value];
    }

    /** `get`. */
    method Get(key: string) returns (r: Option<Value>)
      ensures r == GetMember(Value(), key)
    {
      if key in members {
        r := Some(members[key]);
      } else {
        r := None;
      }
    }
  }

  /** The frames of a sequence of records, in the same order. */
  ghost function FramesOf(records: seq<ActivationRecord>): (fs: seq<Frame>)
    reads records
    ensures |fs| == |records|
  {
    seq(|records|, i requires 0 <= i < |records| reads records => records[i].Value())
  }

  /** `CallStack`: a list of records, the most recently pushed last. */
  class CallStack {
    var records: seq<ActivationRecord>

    /** The stack as a value. */
    ghost function Frames(): seq<Frame>
      reads this, records
    {
      FramesOf(records)
    }

    /** A new stack is empty. */
    constructor ()
      ensures records == [] && Frames() == []
    {
      records := [];
    }

    /** `push`: the record goes on top; no record is changed. */
    method Push(record: ActivationRecord)
      modifies this
      ensures records == old(records) + [record]
      ensures Frames() == PushFrame(old(Frames()), record.Value())
    {
      records := records + [record];
      assert FramesOf(records)[..|old(records)|] == FramesOf(old(records));
    }

    /** `pop`: the top record is removed and returned; an empty stack fails. */
    method Pop() returns (r: Option<ActivationRecord>)
      modifies this
      ensures old(records) == [] ==> r.None? && records == []
      ensures old(records) != [] ==> r == Some(old(records)[|old(records)| - 1]) && records == old(records)[..|old(records)| - 1]
      ensures match PopFrame(old(Frames()))
        case None => r.None? && Frames() == []
        case Some((top, rest)) => r.Some? && r.value.Value() == top && Frames() == rest
    {
      if records == [] {
        r := None;
      } else {
        r := Some(records[|records| - 1]);
        records := records[..|records| - 1];
      }
    }

    /** `peek`: the top record, left on the stack; an empty stack fails. */
    method Peek() returns (r: Option<ActivationRecord>)
      ensures records == [] ==> r.None?
      ensures records != [] ==> r == Some(records[|records| - 1])
      ensures match PeekFrame(Frames())
        case None => r.None?
        case Some(top) => r.Some? && r.value.Value() == top
    {
      if records == [] {
        r := None;
      } else {
        r := Some(records[|records| - 1]);
      }
    }
  }
}
