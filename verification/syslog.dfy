/** Syslog: RFC 5424 messages, with the fall back to RFC 3164. */
module Syslog {
  import opened Strings
  import opened Wrappers

  datatype Message = Message(priority: int, facility: int, severity: int, version: int,
                             timestamp: string, hostname: string, appName: string, procId: string, msgId: string,
                             structuredData: string, message: string)

  const INT_MAX: int := 0x7FFF_FFFF

  /** A piece of the input and what is left of it. */
  datatype Piece = Piece(text: string, rest: string)

  // The cursor helpers.

  function SkipWhitespace(view: string): string { view[Indent(view)..] }

  /** Up to the delimiter, which stays. */
  function Token(view: string, delimiter: char): Piece {
    var end := Find(view, delimiter);
    Piece(view[..end], view[end..])
  }

  /** The next token, blanks before it skipped. */
  function NextToken(view: string): Piece { Token(SkipWhitespace(view), ' ') }

  predicate Digit(c: char) { '0' <= c <= '9' }

  /** How many digits the text starts with. */
  function Digits(s: string): (n: nat)
    ensures n <= |s| && forall i :: 0 <= i < n ==> Digit(s[i])
  {
    if s == "" || !Digit(s[0]) then 0 else 1 + Digits(s[1..])
  }

  function NumberOf(digits: string): nat
    requires forall i :: 0 <= i < |digits| ==> Digit(digits[i])
  {
    if digits == "" then 0
    else
      assert Digit(digits[|digits| - 1]);
      var last: int := digits[|digits| - 1] as int - '0' as int;
      NumberOf(digits[..|digits| - 1]) * 10 + last
  }

  /** std::from_chars for an int: an optional minus and digits, whatever follows; None where it
      reports an error. */
  function FromChars(s: string): Option<int> {
    var minus := s != "" && s[0] == '-';
    var body := if minus then s[1..] else s;
    var n := Digits(body);
    if n == 0 then None
    else
      var x: int := NumberOf(body[..n]);
      if x > INT_MAX + (if minus then 1 else 0) then None else Some(if minus then -x else x)
  }

  datatype Priority = Priority(value: int, rest: string)

  function ParsePriority(data: string): Option<Priority> {
    if data == "" || data[0] != '<' then None
    else
      var end := Find(data, '>');
      if end == |data| || end > 4 then None
      else
        match FromChars(data[1..end])
        case None => None
        case Some(p) => if p < 0 then None else Some(Priority(p, data[end + 1..]))
  }

  /** The position of the first "] ", |s| for npos. */
  function FindClose(s: string): (i: nat)
    ensures i <= |s| && (i < |s| ==> i + 1 < |s| && s[i] == ']' && s[i + 1] == ' ')
  {
    if |s| < 2 then |s| else if s[0] == ']' && s[1] == ' ' then 0 else 1 + FindClose(s[1..])
  }

  /** Structured data up to its last bracket, or nothing for a dash or an open end. */
  function TakeData(view: string): Piece {
    if view != "" && view[0] == '-' then Piece("", view[1..])
    else if view != "" && view[0] == '[' then
      var end := FindClose(view);
      if end < |view| then Piece(view[..end + 1], view[end + 1..]) else Piece("", view)
    else Piece("", view)
  }

  /** From the version on. */
  function ParseBody5424(view: string): Option<Message> {
    var v := SkipWhitespace(view);
    var n := Digits(v);
    if n == 0 || NumberOf(v[..n]) > INT_MAX then None
    else
      var time := NextToken(v[n..]);
      var host := NextToken(time.rest);
      var app := NextToken(host.rest);
      var proc := NextToken(app.rest);
      var id := NextToken(proc.rest);
      var data := TakeData(SkipWhitespace(id.rest));
      Some(Message(0, 0, 0, NumberOf(v[..n]), time.text, host.text, app.text, proc.text, id.text, data.text,
                   SkipWhitespace(data.rest)))
  }

  /** The end of an RFC 3164 tag: the first blank or colon. */
  function TagEnd(s: string): (i: nat)
    ensures i <= |s|
  {
    if s == "" || Blank(s[0]) || s[0] == ':' then 0 else 1 + TagEnd(s[1..])
  }

  /** What follows a tag: an optional colon, and then a process id in brackets. */
  function TakePid(view: string): Piece {
    var v := if view != "" && view[0] == ':' then view[1..] else view;
    var end := Find(v, ']');
    if v != "" && v[0] == '[' && end < |v| then Piece(v[1..end], v[end + 1..]) else Piece("", v)
  }

  function ParseBody3164(view: string): Message {
    var v := SkipWhitespace(view);
    var time := if |v| < 15 then Piece("", v) else Piece(v[..15], v[15..]);
    var host := NextToken(time.rest);
    var t := SkipWhitespace(host.rest);
    var end := TagEnd(t);
    var pid := if end < |t| then TakePid(t[end..]) else Piece("", t);
    Message(0, 0, 0, 0, time.text, host.text, if end < |t| then t[..end] else "", pid.text, "", "",
      SkipWhitespace(pid.rest))
  }

  function WithPriority(m: Message, priority: nat): Message {
    m.(priority := priority, facility := priority / 8, severity := priority % 8)
  }

  /** parse: RFC 5424 when a digit follows the priority and its version can be read. */
  function Parse(data: string): Option<Message> {
    match ParsePriority(data)
    case None => None
    case Some(p) =>
      var m := if p.rest != "" && Digit(p.rest[0]) then ParseBody5424(p.rest) else None;
      Some(WithPriority(if m.Some? then m.value else ParseBody3164(p.rest), p.value))
  }

  method SkipWhitespaceLoop(data: string) returns (view: string)
    ensures view == SkipWhitespace(data)
  {
    view := data;
    while view != "" && Blank(view[0])
      invariant SkipWhitespace(view) == SkipWhitespace(data)
      decreases |view|
    {
      view := view[1..];
    }
  }

  // Structured data.

  type Data = map<string, string>

  /** A parameter and what follows the blank behind it. */
  datatype Read = Read(name: string, value: string, rest: string)

  /** key="value", and the character behind it skipped; None where the loop gives up. */
  function ReadParam(params: string): (r: Option<Read>)
    ensures r.Some? ==> |r.value.rest| < |params|
  {
    var eq := Find(params, '=');
    if eq == |params| || eq + 1 >= |params| || params[eq + 1] != '"' then None
    else
      var rest := params[eq + 2..];
      var quote := Find(rest, '"');
      if quote == |rest| then None
      else Some(Read(params[..eq], rest[..quote], if quote + 2 <= |rest| then rest[quote + 2..] else ""))
  }

  /** The loop over one element's parameters. */
  function TakeParams(params: string, id: string, result: Data): Data
    decreases |params|
  {
    match ReadParam(params)
    case None => result
    case Some(r) => TakeParams(r.rest, id, result[id + "." + r.name := r.value])
  }

  function TakeElement(element: string, result: Data): Data {
    var space := Find(element, ' ');
    if space == |element| then result else TakeParams(element[space + 1..], element[..space], result)
  }

  function TakeElements(sd: string, result: Data): Data
    decreases |sd|
  {
    if sd == "" || sd[0] != '[' then result
    else
      var end := Find(sd, ']');
      if end == |sd| then result else TakeElements(sd[end + 1..], TakeElement(sd[1..end], result))
  }

  /** One round of the loop over elements. */
  lemma {:induction false} ElementsStep(view: string, result: Data)
    ensures TakeElements(view, result)
         == if view == "" || view[0] != '[' || Find(view, ']') == |view| then result
            else TakeElements(view[Find(view, ']') + 1..], TakeElement(view[1..Find(view, ']')], result))
  {
  }

  method ParseStructuredData(sd: string) returns (result: Data)
    ensures result == TakeElements(sd, map[])
  {
    result := map[];
    var view := sd;
    ghost var all := TakeElements(sd, result);
    while view != "" && view[0] == '['
      invariant TakeElements(view, result) == all
      decreases |view|
    {
      ElementsStep(view, result);
      var end := Find(view, ']');
      if end == |view| { return; }
      result := ParseElement(view[1..end], result);
      view := view[end + 1..];
    }
    ElementsStep(view, result);
  }

  /** One round of the loop over parameters. */
  lemma {:induction false} ParamsStep(params: string, id: string, result: Data)
    ensures TakeParams(params, id, result)
         == match ReadParam(params) case None => result
            case Some(r) => TakeParams(r.rest, id, result[id + "." + r.name := r.value])
    ensures params == "" ==> TakeParams(params, id, result) == result
  {
  }

  method ParseElement(element: string, before: Data) returns (result: Data)
    ensures result == TakeElement(element, before)
  {
    var space := Find(element, ' ');
    if space == |element| { return before; }
    result := ParseParams(element[space + 1..], element[..space], before);
  }

  /** The loop over the parameters. */
  method ParseParams(text: string, id: string, before: Data) returns (result: Data)
    ensures result == TakeParams(text, id, before)
  {
    result := before;
    var params := text;
    while params != ""
      invariant TakeParams(params, id, result) == TakeParams(text, id, before)
      decreases |params|
    {
      ParamsStep(params, id, result);
      var next := ReadParam(params);
      if next.None? { return; }
      var r := next.value;
      result, params := result[id + "." + r.name := r.value], r.rest;
    }
    ParamsStep(params, id, result);
  }
}
