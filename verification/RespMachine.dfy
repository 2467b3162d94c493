/** What the incremental RESP reader (redis::Reader of pw_redispacket) computes. */
module RespMachine {
  import opened Bytes
  import opened Decimal
  import opened LineSearch
  import opened RespValue

  /** An unfinished value: an array being filled at `index`, or (node NullBulk) a bulk string
      of `count` bytes that is still on its way. */
  datatype Status = Status(index: nat, count: nat, node: Value)

  /** The queue of finished values and the stack of unfinished ones, its top last. */
  datatype Core = Core(cont: seq<Value>, status: seq<Status>)

  /** How one parsing action ends: normally, with `return -1`, or with a C++ exception. */
  datatype Act = Done(core: Core) | Failed | Threw(core: Core)

  datatype State = State(core: Core, buf: bytes)

  /** How a feed ends. `Cleared` stands for the cleared reader, `Undefined` for a line search
      that ran past the readable bytes. */
  datatype Outcome = Ok(st: State) | Cleared | Exception(st: State) | Undefined

  const EMPTY: Core := Core([], [])
  const INIT: State := State(EMPTY, [])

  function Top(c: Core): Status
    requires c.status != []
  {
    c.status[|c.status| - 1]
  }

  function Below(c: Core): seq<Status>
    requires c.status != []
  {
    c.status[..|c.status| - 1]
  }

  /** `top.node[top.index].assign(v); ++top.index;` or the exception `at` or `[]` throws. */
  function PutAtTop(c: Core, v: Value): Option<Core>
    requires c.status != []
  {
    var top := Top(c);
    if top.node.Array? && top.index < |top.node.items| then
      Some(c.(status := Below(c) +
                        [Status(top.index + 1, top.count, Array(top.node.items[top.index := v]))]))
    else None
  }

  function Rollback(c: Core): Act
    requires c.status != []
    decreases |c.status|
  {
    var top := Top(c);
    if top.index != top.count then Done(c)
    else if |c.status| == 1 then Done(Core(c.cont + [top.node], []))
    else
      var popped := c.(status := Below(c));
      match PutAtTop(popped, top.node)
      case None => Threw(popped)
      case Some(c') => if Top(c').index == Top(c').count then Rollback(c') else Done(c')
  }

  function AppendToTop(c: Core, v: Value): Act {
    if c.status == [] then Done(c.(cont := c.cont + [v]))
    else if !(Top(c).node.Array? || Top(c).node.NullArray?) then Failed
    else
      match PutAtTop(c, v)
      case None => Threw(c)
      case Some(c') => if Top(c').index == Top(c').count then Rollback(c') else Done(c')
  }

  /** A bulk string is pending on top of the stack. */
  predicate BulkPending(c: Core) {
    c.status != [] && (Top(c).node.NullBulk? || Top(c).node.Bulk?)
  }

  function ParseBulk2(c: Core, line: bytes): Act
    requires c.status != []
  {
    if Top(c).count != |line| then Failed
    else AppendToTop(c.(status := Below(c)), Bulk(line))
  }

  function Zeros(n: nat): (r: seq<Value>)
    ensures |r| == n
  {
    seq(n, _ => Integer(0))
  }

  function ParseLine(c: Core, line: bytes): Act {
    if BulkPending(c) then ParseBulk2(c, line)
    else if |line| < 2 then Failed
    else
      var arg := line[1..];
      if line[0] == COLON_TAG then AppendToTop(c, Integer(StrToLL(arg)))
      else if line[0] == PLUS_TAG then
        if OneLine(arg) then AppendToTop(c, Simple(arg)) else Threw(c)
      else if line[0] == MINUS_TAG then
        if OneLine(arg) then AppendToTop(c, Error(arg)) else Threw(c)
      else if line[0] == DOLLAR_TAG then
        if StrToLL(arg) > -1 then Done(c.(status := c.status + [Status(0, StrToLL(arg), NullBulk)]))
        else AppendToTop(c, NullBulk)
      else if line[0] == STAR_TAG then
        if StrToLL(arg) > -1 then
          Done(c.(status := c.status + [Status(0, StrToLL(arg), Array(Zeros(StrToLL(arg))))]))
        else AppendToTop(c, NullArray)
      else Failed
  }

  /** One turn of the loop of `parse`: nothing to do yet, or an action and the bytes left. */
  datatype Turn = Stall | Overran | Took(act: Act, rest: bytes)

  function Step(st: State): (r: Turn)
    ensures r.Took? ==> |r.rest| < |st.buf|
  {
    if BulkPending(st.core) then
      var n := Top(st.core).count;
      if |st.buf| < n + 2 then Stall
      else Took(ParseBulk2(st.core, st.buf[..n]), st.buf[n + 2..])
    else
      match LineOf(st.buf)
      case NoLine => Stall
      case Overrun => Overran
      case Line(text, used) => Took(ParseLine(st.core, text), st.buf[used..])
  }

  function Run(st: State): Outcome
    decreases |st.buf|
  {
    match Step(st)
    case Stall => Ok(st)
    case Overran => Undefined
    case Took(Done(c), rest) => Run(State(c, rest))
    case Took(Failed, _) => Cleared
    case Took(Threw(c), rest) => Exception(State(c, rest))
  }

  function Feed(st: State, chunk: bytes): Outcome {
    Run(State(st.core, st.buf + chunk))
  }
}
