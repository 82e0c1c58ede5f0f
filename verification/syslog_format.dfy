/** Writing syslog messages in the form of RFC 5424, section 6, and reading them back. */
module SyslogFormat {
  import opened Decimal
  import opened Strings
  import opened Syslog
  import opened Wrappers

  // Structured data (section 6.3).

  datatype Param = Param(name: string, value: string)

  datatype Element = Element(id: string, params: seq<Param>)

  function WriteParam(p: Param): string { p.name + "=" + ("\"" + (p.value + "\"")) }

  /** Every parameter with a blank before it. */
  function WriteParams(ps: seq<Param>): string {
    if ps == [] then "" else " " + (WriteParam(ps[0]) + WriteParams(ps[1..]))
  }

  function WriteElement(e: Element): string { "[" + (e.id + WriteParams(e.params) + "]") }

  function WriteElements(es: seq<Element>): string {
    if es == [] then "" else WriteElement(es[0]) + WriteElements(es[1..])
  }

  predicate GoodParam(p: Param) {
    && '=' !in p.name && ']' !in p.name
    && '"' !in p.value && ']' !in p.value && '\\' !in p.value
  }

  predicate GoodElement(e: Element) {
    && e.id != "" && ' ' !in e.id && ']' !in e.id
    && forall i :: 0 <= i < |e.params| ==> GoodParam(e.params[i])
  }

  predicate GoodElements(es: seq<Element>) { forall i :: 0 <= i < |es| ==> GoodElement(es[i]) }

  /** The parameters under `id.name`, a later one over an earlier of its key. */
  function PutParams(id: string, ps: seq<Param>, result: Data): Data {
    if ps == [] then result else PutParams(id, ps[1..], result[id + "." + ps[0].name := ps[0].value])
  }

  function PutElements(es: seq<Element>, result: Data): Data {
    if es == [] then result else PutElements(es[1..], PutParams(es[0].id, es[0].params, result))
  }

  lemma {:induction false} NameRead(name: string, inside: string)
    requires '=' !in name
    ensures var params := name + "=" + ("\"" + inside);
      && Find(params, '=') == |name| && |name| + 1 < |params| && params[|name| + 1] == '"'
      && params[..|name|] == name && params[|name| + 2..] == inside
  {
    FindBefore(name, '=', "\"" + inside);
    var params := name + "=" + ("\"" + inside);
    assert params == name + ['='] + ("\"" + inside) && params[..|name|] == name && params[|name| + 2..] == inside;
  }

  lemma {:induction false} ValueRead(value: string, tail: string)
    requires '"' !in value
    ensures var rest := value + ("\"" + tail);
      Find(rest, '"') == |value| && |value| < |rest| && rest[..|value|] == value && rest[|value| + 1..] == tail
  {
    FindBefore(value, '"', tail);
    assert value + ("\"" + tail) == value + ['"'] + tail;
  }

  lemma {:induction false} ParamParts(params: string, name: string, rest: string, value: string, tail: string)
    requires var eq := Find(params, '=');
      && eq + 1 < |params| && params[eq + 1] == '"' && params[..eq] == name && params[eq + 2..] == rest
    requires var quote := Find(rest, '"');
      && quote < |rest| && rest[..quote] == value && rest[quote + 1..] == tail
    ensures ReadParam(params) == Some(Read(name, value, if tail == "" then "" else tail[1..]))
  {
    AfterQuote(rest, Find(rest, '"'), tail);
  }

  lemma {:induction false} ParamRead(p: Param, tail: string)
    requires GoodParam(p) && (tail == "" || tail[0] == ' ')
    ensures ReadParam(WriteParam(p) + tail) == Some(Read(p.name, p.value, if tail == "" then "" else tail[1..]))
  {
    var rest := p.value + ("\"" + tail);
    assert WriteParam(p) + tail == p.name + "=" + ("\"" + rest);
    NameRead(p.name, rest);
    ValueRead(p.value, tail);
    ParamParts(WriteParam(p) + tail, p.name, rest, p.value, tail);
  }

  /** The character behind the closing quote is skipped, if there is one. */
  lemma {:induction false} AfterQuote(rest: string, quote: nat, tail: string)
    requires quote < |rest| && rest[quote + 1..] == tail
    ensures (if quote + 2 <= |rest| then rest[quote + 2..] else "") == (if tail == "" then "" else tail[1..])
  {
    if tail != "" { assert rest[quote + 2..] == rest[quote + 1..][1..]; }
  }

  lemma {:induction false} ParamTaken(p: Param, tail: string, id: string, result: Data)
    requires GoodParam(p) && (tail == "" || tail[0] == ' ')
    ensures TakeParams(WriteParam(p) + tail, id, result)
         == TakeParams(if tail == "" then "" else tail[1..], id, result[id + "." + p.name := p.value])
  {
    ParamRead(p, tail);
  }

  lemma {:induction false} ParamsTaken(ps: seq<Param>, id: string, result: Data)
    requires ps != [] && forall i :: 0 <= i < |ps| ==> GoodParam(ps[i])
    ensures TakeParams(WriteParams(ps)[1..], id, result) == PutParams(id, ps, result)
    decreases |ps|
  {
    var result' := result[id + "." + ps[0].name := ps[0].value];
    if ps[1..] == [] {
      ParamTaken(ps[0], "", id, result);
      assert WriteParams(ps[1..]) == "" && PutParams(id, ps[1..], result') == result';
    } else {
      ParamTaken(ps[0], WriteParams(ps[1..]), id, result);
      ParamsTaken(ps[1..], id, result');
    }
  }

  lemma {:induction false} ElementTaken(e: Element, result: Data)
    requires GoodElement(e)
    ensures TakeElement(e.id + WriteParams(e.params), result) == PutParams(e.id, e.params, result)
  {
    var text := e.id + WriteParams(e.params);
    if e.params == [] {
      assert text == e.id;
      FindNone(e.id, ' ');
    } else {
      var rest := WriteParams(e.params)[1..];
      assert text == e.id + [' '] + rest;
      FindBefore(e.id, ' ', rest);
      assert text[..|e.id|] == e.id && text[|e.id| + 1..] == rest;
      ParamsTaken(e.params, e.id, result);
    }
  }

  lemma {:induction false} NoBracket(ps: seq<Param>)
    requires forall i :: 0 <= i < |ps| ==> GoodParam(ps[i])
    ensures ']' !in WriteParams(ps)
  {
    if ps != [] { NoBracket(ps[1..]); }
  }

  lemma {:induction false} FirstElement(inner: string, tail: string, result: Data)
    requires ']' !in inner
    ensures TakeElements("[" + (inner + "]") + tail, result) == TakeElements(tail, TakeElement(inner, result))
  {
    var sd := "[" + (inner + "]") + tail;
    assert sd == ("[" + inner) + [']'] + tail;
    FindBefore("[" + inner, ']', tail);
    assert sd[1..|inner| + 1] == inner && sd[|inner| + 2..] == tail;
  }

  /** Parsing written structured data gives exactly its parameters under `id.name`. */
  lemma {:induction false} DataParsed(es: seq<Element>, result: Data)
    requires GoodElements(es)
    ensures TakeElements(WriteElements(es), result) == PutElements(es, result)
    decreases |es|
  {
    if es != [] {
      var e, tail := es[0], WriteElements(es[1..]);
      var inner := e.id + WriteParams(e.params);
      NoBracket(e.params);
      FirstElement(inner, tail, result);
      ElementTaken(e, result);
      DataParsed(es[1..], PutParams(e.id, e.params, result));
    }
  }

  /** Every parameter with its key, in order. */
  function Pairs(es: seq<Element>): seq<(string, string)> {
    if es == [] then [] else PairsOf(es[0].id, es[0].params) + Pairs(es[1..])
  }

  function PairsOf(id: string, ps: seq<Param>): seq<(string, string)> {
    seq(|ps|, i requires 0 <= i < |ps| => (id + "." + ps[i].name, ps[i].value))
  }

  function PutPairs(pairs: seq<(string, string)>, result: Data): Data {
    if pairs == [] then result else PutPairs(pairs[1..], result[pairs[0].0 := pairs[0].1])
  }

  lemma {:induction false} PutPairsConcat(a: seq<(string, string)>, b: seq<(string, string)>, result: Data)
    ensures PutPairs(a + b, result) == PutPairs(b, PutPairs(a, result))
    decreases |a|
  {
    if a == [] {
      assert a + b == b;
    } else {
      assert (a + b)[1..] == a[1..] + b;
      PutPairsConcat(a[1..], b, result[a[0].0 := a[0].1]);
    }
  }

  lemma {:induction false} PutParamsPairs(id: string, ps: seq<Param>, result: Data)
    ensures PutParams(id, ps, result) == PutPairs(PairsOf(id, ps), result)
    decreases |ps|
  {
    if ps != [] {
      assert PairsOf(id, ps)[1..] == PairsOf(id, ps[1..]);
      PutParamsPairs(id, ps[1..], result[id + "." + ps[0].name := ps[0].value]);
    }
  }

  lemma {:induction false} PutElementsPairs(es: seq<Element>, result: Data)
    ensures PutElements(es, result) == PutPairs(Pairs(es), result)
    decreases |es|
  {
    if es != [] {
      PutParamsPairs(es[0].id, es[0].params, result);
      PutPairsConcat(PairsOf(es[0].id, es[0].params), Pairs(es[1..]), result);
      PutElementsPairs(es[1..], PutParams(es[0].id, es[0].params, result));
    }
  }

  predicate DistinctKeys(pairs: seq<(string, string)>)
  {
    forall i, j :: 0 <= i < j < |pairs| ==> pairs[i].0 != pairs[j].0
  }

  lemma {:induction false} PutPairsAt(pairs: seq<(string, string)>, result: Data, k: string)
    ensures k in PutPairs(pairs, result) <==> k in result || exists i :: 0 <= i < |pairs| && pairs[i].0 == k
    ensures (forall i :: 0 <= i < |pairs| ==> pairs[i].0 != k) && k in result
        ==> PutPairs(pairs, result)[k] == result[k]
    decreases |pairs|
  {
    if pairs != [] {
      PutPairsAt(pairs[1..], result[pairs[0].0 := pairs[0].1], k);
      forall i | 1 <= i < |pairs| ensures pairs[i] == pairs[1..][i - 1] {
      }
    }
  }

  lemma {:induction false} PutPairsExact(pairs: seq<(string, string)>, result: Data, i: nat)
    requires DistinctKeys(pairs) && i < |pairs|
    ensures pairs[i].0 in PutPairs(pairs, result) && PutPairs(pairs, result)[pairs[i].0] == pairs[i].1
    decreases |pairs|
  {
    var result' := result[pairs[0].0 := pairs[0].1];
    if i == 0 {
      forall j | 0 <= j < |pairs[1..]| ensures pairs[1..][j].0 != pairs[0].0 { assert pairs[1..][j] == pairs[j + 1]; }
      PutPairsAt(pairs[1..], result', pairs[0].0);
    } else {
      PutPairsExact(pairs[1..], result', i - 1);
    }
  }

  /** When the keys are distinct, the map has exactly the written parameters, each with its value. */
  lemma {:induction false} DataExact(es: seq<Element>)
    requires GoodElements(es) && DistinctKeys(Pairs(es))
    ensures var result := TakeElements(WriteElements(es), map[]);
      && (forall i :: 0 <= i < |Pairs(es)| ==> Pairs(es)[i].0 in result && result[Pairs(es)[i].0] == Pairs(es)[i].1)
      && forall k :: k in result ==> exists i :: 0 <= i < |Pairs(es)| && Pairs(es)[i].0 == k
  {
    DataParsed(es, map[]);
    PutElementsPairs(es, map[]);
    forall i | 0 <= i < |Pairs(es)|
      ensures Pairs(es)[i].0 in PutPairs(Pairs(es), map[])
          && PutPairs(Pairs(es), map[])[Pairs(es)[i].0] == Pairs(es)[i].1
    {
      PutPairsExact(Pairs(es), map[], i);
    }
    forall k | k in PutPairs(Pairs(es), map[]) ensures exists i :: 0 <= i < |Pairs(es)| && Pairs(es)[i].0 == k {
      PutPairsAt(Pairs(es), map[], k);
    }
  }

  // Numbers.

  lemma {:induction false} DigitsAll(digits: string, rest: string)
    requires (forall i :: 0 <= i < |digits| ==> Digit(digits[i])) && (rest == "" || !Digit(rest[0]))
    ensures Digits(digits + rest) == |digits|
  {
    if digits == "" {
      assert digits + rest == rest;
    } else {
      assert (digits + rest)[1..] == digits[1..] + rest;
      DigitsAll(digits[1..], rest);
    }
  }

  lemma {:induction false} NumberOfDec(n: nat)
    ensures (forall i :: 0 <= i < |DecNat(n)| ==> Digit(DecNat(n)[i])) && NumberOf(DecNat(n)) == n
  {
    DecNatDigits(n);
    var s := DecNat(n);
    if n >= 10 {
      NumberOfDec(n / 10);
      assert s[..|s| - 1] == DecNat(n / 10) && s[|s| - 1] == DigitChar(n % 10);
    } else {
      assert s[..|s| - 1] == "" && NumberOf("") == 0;
    }
  }

  lemma {:induction false} DecRead(n: nat)
    requires n <= INT_MAX
    ensures FromChars(DecNat(n)) == Some(n)
  {
    var s := DecNat(n);
    NumberOfDec(n);
    DigitsAll(s, "");
    assert s + "" == s && s[..|s|] == s && Digit(s[0]);
  }

  // Whole messages (section 6).

  datatype Fields = Fields(priority: nat, version: nat, timestamp: string, hostname: string, appName: string,
                           procId: string, msgId: string, data: seq<Element>, msg: Option<string>)

  function WriteData(es: seq<Element>): string { if es == [] then "-" else WriteElements(es) }

  function WriteMsg(msg: Option<string>): string { if msg.Some? then " " + msg.value else "" }

  /** A blank, a field, and what follows. */
  function After(field: string, rest: string): string { " " + (field + rest) }

  function WriteEnd(f: Fields): string { " " + (WriteData(f.data) + WriteMsg(f.msg)) }

  function WriteRest(f: Fields): string {
    After(f.timestamp, After(f.hostname, After(f.appName, After(f.procId, After(f.msgId, WriteEnd(f))))))
  }

  function Write(f: Fields): string { "<" + (DecNat(f.priority) + (">" + (DecNat(f.version) + WriteRest(f)))) }

  predicate GoodToken(t: string) { t != "" && forall i :: 0 <= i < |t| ==> !Blank(t[i]) }

  predicate GoodFields(f: Fields) {
    && f.priority <= 191 && f.version <= INT_MAX
    && GoodToken(f.timestamp) && GoodToken(f.hostname) && GoodToken(f.appName) && GoodToken(f.procId)
    && GoodToken(f.msgId)
    && GoodElements(f.data)
    && (f.msg.Some? ==> f.msg.value != "" && !Blank(f.msg.value[0]))
  }

  /** What parsing should give back. */
  function Expected(f: Fields): Message {
    Message(f.priority, f.priority / 8, f.priority % 8, f.version, f.timestamp, f.hostname, f.appName, f.procId,
            f.msgId, if f.data == [] then "" else WriteElements(f.data), if f.msg.Some? then f.msg.value else "")
  }

  lemma {:induction false} OneBlank(s: string)
    requires s != "" && !Blank(s[0])
    ensures SkipWhitespace(" " + s) == s
  {
    assert " " + s == Spaces(1) + s;
    IndentSpaces(1, s);
  }

  lemma {:induction false} TokenRead(token: string, rest: string)
    requires GoodToken(token) && rest != "" && rest[0] == ' '
    ensures NextToken(After(token, rest)) == Piece(token, rest)
  {
    OneBlank(token + rest);
    assert token + rest == token + [' '] + rest[1..] && ' ' !in token;
    FindBefore(token, ' ', rest[1..]);
  }

  lemma {:induction false} CloseAt(s: string, k: nat)
    requires k + 1 < |s| && s[k] == ']' && s[k + 1] == ' ' && forall i :: 0 <= i < k ==> s[i] != ']' || s[i + 1] != ' '
    ensures FindClose(s) == k
  {
    if k > 0 { CloseAt(s[1..], k - 1); }
  }

  lemma {:induction false} NoClose(s: string)
    requires forall i :: 0 <= i < |s| - 1 ==> s[i] != ']' || s[i + 1] != ' '
    ensures FindClose(s) == |s|
  {
    if |s| >= 2 { NoClose(s[1..]); }
  }

  /** Every closing bracket but the last character is followed by an opening one. */
  predicate Bracketed(s: string) { forall i :: 0 <= i < |s| - 1 && s[i] == ']' ==> s[i + 1] == '[' }

  lemma {:induction false} BracketedNext(inner: string, tail: string)
    requires ']' !in inner && Bracketed(tail) && (tail == "" || tail[0] == '[')
    ensures Bracketed(inner + ("]" + tail))
  {
    var s := inner + ("]" + tail);
    forall i | 0 <= i < |s| - 1 && s[i] == ']' ensures s[i + 1] == '[' {
      if i > |inner| { assert s[i] == tail[i - |inner| - 1]; }
    }
  }

  predicate Enclosed(s: string) { |s| >= 2 && s[0] == '[' && s[|s| - 1] == ']' }

  lemma {:induction false} EnclosedNext(inner: string, tail: string)
    requires inner != "" && inner[0] == '[' && (tail == "" || Enclosed(tail))
    ensures Enclosed(inner + ("]" + tail))
  {
    var s := inner + ("]" + tail);
    assert s[0] == inner[0];
    assert tail != "" ==> s[|s| - 1] == tail[|tail| - 1];
  }

  lemma {:induction false} ElementInner(e: Element, tail: string)
    ensures WriteElement(e) + tail == ("[" + (e.id + WriteParams(e.params))) + ("]" + tail)
  {
  }

  lemma {:induction false} Brackets(es: seq<Element>)
    requires GoodElements(es)
    ensures Bracketed(WriteElements(es)) && if es == [] then WriteElements(es) == "" else Enclosed(WriteElements(es))
    decreases |es|
  {
    if es != [] {
      var e, tail := es[0], WriteElements(es[1..]);
      var inner := "[" + (e.id + WriteParams(e.params));
      Brackets(es[1..]);
      ElementInner(e, tail);
      assert ']' !in inner by { NoBracket(e.params); }
      BracketedNext(inner, tail);
      EnclosedNext(inner, tail);
    }
  }

  /** Structured data is found when a message follows. */
  lemma {:induction false} DataFound(data: string, rest: string)
    requires Enclosed(data) && Bracketed(data)
    ensures TakeData(data + (" " + rest)) == Piece(data, " " + rest)
  {
    var view := data + (" " + rest);
    CloseAt(view, |data| - 1);
    assert view[..|data|] == data && view[|data|..] == " " + rest;
  }

  /** At the end of the input it is not. */
  lemma {:induction false} DataMissed(data: string)
    requires Enclosed(data) && Bracketed(data)
    ensures TakeData(data) == Piece("", data)
  {
    NoClose(data);
  }

  /** What parsing makes of written data: all of it, or, at the end of the input, nothing. */
  function Taken(f: Fields): Piece {
    if f.data != [] && f.msg.None? then Piece("", WriteElements(f.data))
    else Piece(if f.data == [] then "" else WriteElements(f.data), WriteMsg(f.msg))
  }

  lemma {:induction false} DataTaken(f: Fields)
    requires GoodElements(f.data)
    ensures TakeData(SkipWhitespace(WriteEnd(f))) == Taken(f)
  {
    var s, view := WriteElements(f.data), WriteData(f.data) + WriteMsg(f.msg);
    Brackets(f.data);
    OneBlank(view);
    if f.data == [] {
      assert view[1..] == WriteMsg(f.msg);
    } else if f.msg.Some? {
      DataFound(s, f.msg.value);
    } else {
      assert view == s;
      DataMissed(s);
    }
  }

  lemma {:induction false} MessageRead(msg: Option<string>)
    requires msg.Some? ==> msg.value != "" && !Blank(msg.value[0])
    ensures SkipWhitespace(WriteMsg(msg)) == if msg.Some? then msg.value else ""
  {
    if msg.Some? { OneBlank(msg.value); }
  }

  lemma {:induction false} PriorityRead(p: nat, rest: string)
    requires p <= 191
    ensures ParsePriority("<" + (DecNat(p) + (">" + rest))) == Some(Priority(p, rest))
  {
    var digits := DecNat(p);
    var view := "<" + (digits + (">" + rest));
    NumberOfDec(p);
    ShortPriority(p);
    assert view == ("<" + digits) + ['>'] + rest;
    FindBefore("<" + digits, '>', rest);
    assert view[1..|digits| + 1] == digits && view[|digits| + 2..] == rest;
    DecRead(p);
  }

  /** Which priorities are read at all: one to three characters between the brackets that start with
      digits, whose number it is, or with a minus and zeros. */
  lemma {:induction false} PriorityCases(inner: string, rest: string)
    requires '>' !in inner
    ensures var p, n := ParsePriority("<" + inner + ">" + rest), Digits(inner);
      && (inner == "" || |inner| > 3 ==> p == None)
      && (inner != "" && inner[0] != '-' && n == 0 ==> p == None)
      && (0 < n <= |inner| <= 3 ==> p == Some(Priority(NumberOf(inner[..n]), rest)))
      && (1 < |inner| <= 3 && inner[0] == '-' ==>
            (p.Some? <==> Digits(inner[1..]) > 0 && NumberOf(inner[1..][..Digits(inner[1..])]) == 0))
  {
    var view := ("<" + inner) + ['>'] + rest;
    FindBefore("<" + inner, '>', rest);
    assert view == "<" + inner + ">" + rest && view[1..|inner| + 1] == inner && view[|inner| + 2..] == rest;
    if |inner| <= 3 {
      ShortNumber(inner[..Digits(inner)]);
      if inner != "" { ShortNumber(inner[1..][..Digits(inner[1..])]); }
    }
  }

  function Ten(n: nat): nat { if n == 0 then 1 else 10 * Ten(n - 1) }

  lemma {:induction false} NumberBelow(digits: string)
    requires forall i :: 0 <= i < |digits| ==> Digit(digits[i])
    ensures NumberOf(digits) < Ten(|digits|)
  {
    if digits != "" { NumberBelow(digits[..|digits| - 1]); }
  }

  lemma {:induction false} ShortNumber(digits: string)
    requires |digits| <= 3 && forall i :: 0 <= i < |digits| ==> Digit(digits[i])
    ensures NumberOf(digits) < 1000
  {
    NumberBelow(digits);
    assert Ten(1) == 10 && Ten(2) == 100 && Ten(3) == 1000;
  }

  lemma {:induction false} ShortPriority(p: nat)
    requires p <= 191
    ensures |DecNat(p)| <= 3
  {
    if p >= 10 {
      var q := p / 10;
      assert DecNat(p) == DecNat(q) + [DigitChar(p % 10)];
      if q >= 10 { assert DecNat(q) == DecNat(q / 10) + [DigitChar(q % 10)]; }
    }
  }

  lemma {:induction false} VersionRead(version: nat, rest: string)
    requires rest != "" && rest[0] == ' '
    ensures var digits := DecNat(version); var view := digits + rest;
      && SkipWhitespace(view) == view && Digits(view) == |digits|
      && view[..|digits|] == digits && view[|digits|..] == rest
  {
    var view := DecNat(version) + rest;
    NumberOfDec(version);
    assert view[0] == DecNat(version)[0] && Digit(view[0]);
    DigitsAll(DecNat(version), rest);
    assert view[..|DecNat(version)|] == DecNat(version);
  }

  /** What parsing gives: the fields, but data without a message ends up as the message. */
  function Given(f: Fields): Message {
    Message(0, 0, 0, f.version, f.timestamp, f.hostname, f.appName, f.procId, f.msgId, Taken(f).text,
            SkipWhitespace(Taken(f).rest))
  }

  lemma {:induction false} BodyRead(f: Fields)
    requires GoodFields(f)
    ensures ParseBody5424(DecNat(f.version) + WriteRest(f)) == Some(Given(f))
  {
    var id := After(f.msgId, WriteEnd(f));
    var proc := After(f.procId, id);
    var app := After(f.appName, proc);
    var host := After(f.hostname, app);
    TokenRead(f.timestamp, host);
    TokenRead(f.hostname, app);
    TokenRead(f.appName, proc);
    TokenRead(f.procId, id);
    TokenRead(f.msgId, WriteEnd(f));
    DataTaken(f);
    NumberOfDec(f.version);
    VersionRead(f.version, WriteRest(f));
  }

  lemma {:induction false} Prioritized(p: nat, body: string, m: Message)
    requires p <= 191 && body != "" && Digit(body[0]) && ParseBody5424(body) == Some(m)
    ensures Parse("<" + (DecNat(p) + (">" + body))) == Some(WithPriority(m, p))
  {
    PriorityRead(p, body);
  }

  /** Which form is read: RFC 5424 when digits follow the priority that make a version of at most
      2^31 - 1, and RFC 3164 otherwise. */
  lemma {:induction false} VersionDecides(p: nat, body: string)
    requires p <= 191
    ensures var n, m := Digits(body), Parse("<" + (DecNat(p) + (">" + body)));
      if 0 < n && NumberOf(body[..n]) < 0x8000_0000
      then m.Some? && m.value.priority == p && m.value.version == NumberOf(body[..n])
      else m == Some(WithPriority(ParseBody3164(body), p))
  {
    PriorityRead(p, body);
    if Digits(body) > 0 { assert Indent(body) == 0 && body[0..] == body; }
  }

  lemma {:induction false} Parsed(f: Fields)
    requires GoodFields(f)
    ensures Parse(Write(f)) == Some(WithPriority(Given(f), f.priority))
  {
    var digits := DecNat(f.version);
    var body := digits + WriteRest(f);
    NumberOfDec(f.version);
    assert digits != "" && body[0] == digits[0] && Digit(body[0]);
    BodyRead(f);
    Prioritized(f.priority, body, Given(f));
  }

  lemma {:induction false} GivenIff(f: Fields)
    requires GoodFields(f)
    ensures WithPriority(Given(f), f.priority) == Expected(f) <==> f.data == [] || f.msg.Some?
  {
    MessageRead(f.msg);
    Brackets(f.data);
  }

  /** Parsing what was written gives every field back, with facility * 8 + severity the priority,
      exactly when the structured data is empty or a message follows it. Structured data that ends
      the input, which RFC 5424 allows, is read as the message. */
  lemma {:induction false} RoundTripIff(f: Fields)
    requires GoodFields(f)
    ensures Parse(Write(f)) == Some(Expected(f)) <==> f.data == [] || f.msg.Some?
    ensures Parse(Write(f)).Some?
    ensures var m := Parse(Write(f)).value; m.facility * 8 + m.severity == f.priority && m.severity < 8
  {
    Parsed(f);
    GivenIff(f);
  }

  // RFC 3164.

  lemma {:induction false} TagEndAt(tag: string, rest: string)
    requires GoodToken(tag) && ':' !in tag && rest != "" && rest[0] == ':'
    ensures TagEnd(tag + rest) == |tag|
    decreases |tag|
  {
    assert (tag + rest)[0] == tag[0] && (tag + rest)[1..] == tag[1..] + rest;
    if |tag| > 1 { TagEndAt(tag[1..], rest); } else { assert tag[1..] + rest == rest; }
  }

  /** A message in the form of RFC 3164 behind its priority: time, host, tag and text. */
  function WriteOld(time: string, host: string, tag: string, msg: string): string
  {
    time + After(host, " " + (tag + (":" + (" " + msg))))
  }

  lemma {:induction false} TagRead(tag: string, inside: string, pid: Piece)
    requires GoodToken(tag) && ':' !in tag && TakePid(":" + inside) == pid
    ensures var t := tag + (":" + inside);
      TagEnd(t) == |tag| < |t| && t[..|tag|] == tag && TakePid(t[|tag|..]) == pid
  {
    var end := ":" + inside;
    TagEndAt(tag, end);
    assert (tag + end)[..|tag|] == tag && (tag + end)[|tag|..] == end;
  }

  /** A message whose tag is followed by a colon and this. */
  lemma {:induction false} OldRead(time: string, host: string, tag: string, inside: string, pid: string, msg: string)
    requires |time| == 15 && !Blank(time[0]) && GoodToken(host) && GoodToken(tag) && ':' !in tag
    requires msg != "" && !Blank(msg[0]) && TakePid(":" + inside) == Piece(pid, " " + msg)
    ensures ParseBody3164(time + After(host, " " + (tag + (":" + inside))))
         == Message(0, 0, 0, 0, time, host, tag, pid, "", "", msg)
  {
    var end := ":" + inside;
    var tail := " " + (tag + end);
    TimeRead(time, After(host, tail));
    TokenRead(host, tail);
    OneBlank(tag + end);
    TagRead(tag, inside, Piece(pid, " " + msg));
    OneBlank(msg);
  }

  /** Only directly behind the colon is a process id in brackets read. */
  lemma {:induction false} PidBehindColon(time: string, host: string, tag: string, pid: string, msg: string)
    requires |time| == 15 && !Blank(time[0]) && GoodToken(host) && GoodToken(tag) && ':' !in tag && ']' !in pid
    requires msg != "" && !Blank(msg[0])
    ensures ParseBody3164(time + After(host, " " + (tag + (":" + ("[" + (pid + ("]" + (" " + msg))))))))
         == Message(0, 0, 0, 0, time, host, tag, pid, "", "", msg)
  {
    PidRead(pid, " " + msg);
    OldRead(time, host, tag, "[" + (pid + ("]" + (" " + msg))), pid, msg);
  }

  lemma {:induction false} PidRead(pid: string, rest: string)
    requires ']' !in pid
    ensures TakePid(":" + ("[" + (pid + ("]" + rest)))) == Piece(pid, rest)
  {
    var v := "[" + (pid + ("]" + rest));
    assert (":" + v)[1..] == v;
    FindBefore("[" + pid, ']', rest);
    assert v == ("[" + pid) + [']'] + rest && v[1..|pid| + 1] == pid && v[|pid| + 2..] == rest;
  }

  /** The timestamp is the first fifteen characters behind the blanks, if there are that many. */
  lemma {:induction false} TimeTaken(view: string)
    ensures var v := view[Indent(view)..];
      && ParseBody3164(view).timestamp == (if |v| >= 15 then v[..15] else "")
      && ParseBody3164(view).hostname == NextToken(if |v| >= 15 then v[15..] else v).text
  {
  }

  /** It is read back field by field, but a process id in brackets stays in the tag: the tag ends
      at a colon, so the process id is always empty. */
  lemma {:induction false} TagKeepsPid(time: string, host: string, tag: string, msg: string)
    requires |time| == 15 && !Blank(time[0]) && GoodToken(host) && GoodToken(tag) && ':' !in tag && msg != ""
        && !Blank(msg[0])
    ensures ParseBody3164(WriteOld(time, host, tag, msg)) == Message(0, 0, 0, 0, time, host, tag, "", "", "", msg)
  {
    var inside := " " + msg;
    assert (":" + inside)[1..] == inside;
    OldRead(time, host, tag, inside, "", msg);
  }

  lemma {:induction false} TimeRead(time: string, rest: string)
    requires |time| == 15 && !Blank(time[0])
    ensures SkipWhitespace(time + rest) == time + rest && (time + rest)[..15] == time && (time + rest)[15..] == rest
  {
    assert (time + rest)[0] == time[0];
  }
}
