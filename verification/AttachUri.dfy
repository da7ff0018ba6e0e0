/** The address of a terminal's event stream, and a reader that takes it apart (RFC 3986). */
module AttachUri {
  import opened Wrappers

  type text = seq<byte>

  datatype Request = Request(id: text, epoch: Option<text>, after: Option<nat>,
                             controlled: bool, snapshot: bool, observer: bool)
  {
    /** A position in the stream needs both its parts; half a position is not sent. */
    function Normal(): Request {
      if epoch.Some? && after.Some? then this else this.(epoch := None, after := None)
    }
  }

  // ----- Percent-encoding

  /** Section 2.3: letters, digits, hyphen, period, underscore and tilde. */
  predicate Unreserved(b: byte) {
    || 0x30 <= b < 0x3A || 0x41 <= b < 0x5B || 0x61 <= b < 0x7B
    || b == '-' as int || b == '.' as int || b == '_' as int || b == '~' as int
  }

  function Hex(n: nat): (c: char)
    requires n < 16
  {
    if n < 10 then (0x30 + n) as char else (0x41 + n - 10) as char
  }

  function Unhex(c: char): Option<nat> {
    if '0' <= c <= '9' then Some(c as int - 0x30)
    else if 'A' <= c <= 'F' then Some(c as int - 0x41 + 10)
    else None
  }

  function EncodeByte(b: byte): string {
    if Unreserved(b) then [b as char] else ['%', Hex(b / 16), Hex(b % 16)]
  }

  function EncodeId(id: text): string
    decreases |id|
  {
    if id == [] then [] else EncodeByte(id[0]) + EncodeId(id[1..])
  }

  /** Section 2.1: an unreserved character, or a triplet. */
  function DecodeId(s: string): Option<text>
    decreases |s|
  {
    if s == [] then Some([])
    else if s[0] == '%' then
      if |s| < 3 || Unhex(s[1]).None? || Unhex(s[2]).None? then None
      else
        match DecodeId(s[3..])
        case None => None
        case Some(rest) => Some([Unhex(s[1]).value * 16 + Unhex(s[2]).value] + rest)
    else if s[0] as int >= 0x80 || !Unreserved(s[0] as int) then None
    else
      match DecodeId(s[1..])
      case None => None
      case Some(rest) => Some([s[0] as int] + rest)
  }

  /** What an encoded identifier may hold. */
  predicate Encoded(c: char) { c == '%' || ((c as int) < 0x80 && Unreserved(c as int)) }

  lemma {:induction false} EncodedByte(b: byte, rest: string)
    ensures
      DecodeId(EncodeByte(b) + rest) ==
      match DecodeId(rest)
      case None => None
      case Some(tail) => Some([b] + tail)
    ensures forall i :: 0 <= i < |EncodeByte(b)| ==> Encoded(EncodeByte(b)[i])
  {
    var c := EncodeByte(b);
    assert (c + rest)[|c|..] == rest;
  }

  lemma {:induction false} EncodedId(id: text)
    ensures DecodeId(EncodeId(id)) == Some(id)
    ensures forall i :: 0 <= i < |EncodeId(id)| ==> Encoded(EncodeId(id)[i])
    decreases |id|
  {
    if id != [] {
      EncodedId(id[1..]);
      EncodedByte(id[0], EncodeId(id[1..]));
      assert id == [id[0]] + id[1..];
    }
  }

  // ----- The address

  const PREFIX := "ws://aow-terminald/v1/runtimes/"
  const SUFFIX := "/attach"

  datatype Pair = Pair(key: string, value: string)

  const CONTROL := Pair("control", "v2")
  const SNAPSHOT := Pair("capabilities", "vt-snapshot-v1")
  const OBSERVER := Pair("observer", "v1")

  function Epoch(epoch: text): Pair { Pair("epoch", EncodeId(epoch)) }

  function After(after: nat): Pair { Pair("after", Decimal(after)) }

  function Position(r: Request): seq<Pair> {
    if r.epoch.Some? && r.after.Some? then [Epoch(r.epoch.value)] + [After(r.after.value)] else []
  }

  function Parameters(r: Request): seq<Pair> {
    Position(r)
    + ((if r.controlled then [CONTROL] else [])
    + ((if r.snapshot then [SNAPSHOT] else [])
    + (if r.observer then [OBSERVER] else [])))
  }

  /** The pairs of a query, the first after `?` and the others after `&` (section 3.4). */
  function Query(pairs: seq<Pair>, first: bool): string
    decreases |pairs|
  {
    if pairs == [] then []
    else
      [if first then '?' else '&'] + (pairs[0].key + (['='] + (pairs[0].value + Query(pairs[1..], false))))
  }

  function Base(id: text): string { PREFIX + (EncodeId(id) + SUFFIX) }

  function Address(r: Request): string { Base(r.id) + Query(Parameters(r), true) }

  /** Text that can stand in a query without ending a part of it. */
  predicate Simple(s: string) { forall i :: 0 <= i < |s| ==> s[i] !in {'?', '&', '=', '/'} }

  predicate SimplePairs(pairs: seq<Pair>) {
    forall i :: 0 <= i < |pairs| ==> Simple(pairs[i].key) && Simple(pairs[i].value)
  }

  lemma {:induction false} QueryAppend(pairs: seq<Pair>, more: seq<Pair>, first: bool)
    ensures Query(pairs + more, first) == Query(pairs, first) + Query(more, first && pairs == [])
    decreases |pairs|
  {
    if pairs == [] {
      assert pairs + more == more;
    } else {
      assert (pairs + more)[0] == pairs[0] && (pairs + more)[1..] == pairs[1..] + more;
      QueryAppend(pairs[1..], more, false);
      var rest, tail := Query(pairs[1..], false), Query(more, false);
      Associative(pairs[0].value, rest, tail);
      Associative(['='], pairs[0].value + rest, tail);
      Associative(pairs[0].key, ['='] + (pairs[0].value + rest), tail);
      Associative([if first then '?' else '&'], pairs[0].key + (['='] + (pairs[0].value + rest)), tail);
    }
  }

  lemma {:induction false} BaseHasNoQuery(id: text)
    ensures '?' !in Base(id)
  {
    EncodedId(id);
  }

  lemma {:induction false} QueryMark(base: string, pairs: seq<Pair>)
    requires '?' !in base
    ensures '?' in base + Query(pairs, true) <==> pairs != []
  {
    if pairs != [] { assert (base + Query(pairs, true))[|base|] == '?'; }
  }

  /** One more parameter, after whichever separator is due. */
  method Extend(uri: string, ghost base: string, ghost pairs: seq<Pair>, pair: Pair) returns (r: string)
    requires '?' !in base && uri == base + Query(pairs, true)
    ensures r == base + Query(pairs + [pair], true)
  {
    QueryMark(base, pairs);
    var separator := if '?' in uri then '&' else '?';
    var parameter := pair.key + (['='] + pair.value);
    r := uri + ([separator] + parameter);
    QueryAppend(pairs, [pair], true);
    assert [pair][1..] == [];
    assert Query([pair], pairs == []) == [separator] + (pair.key + (['='] + (pair.value + [])));
    assert pair.value + [] == pair.value;
    Associative(base, Query(pairs, true), [separator] + parameter);
  }

  method ExtendIf(uri: string, ghost base: string, ghost pairs: seq<Pair>, asked: bool, pair: Pair) returns (r: string)
    requires '?' !in base && uri == base + Query(pairs, true)
    ensures r == base + Query(pairs + (if asked then [pair] else []), true)
  {
    if asked {
      r := Extend(uri, base, pairs, pair);
    } else {
      assert pairs + [] == pairs;
      r := uri;
    }
  }

  method Attach(r: Request) returns (uri: string)
    ensures uri == Address(r)
  {
    uri := Base(r.id);
    ghost var base, position := uri, Position(r);
    BaseHasNoQuery(r.id);
    assert uri == base + Query([], true);
    if r.epoch.Some? && r.after.Some? {
      uri := Extend(uri, base, [], Epoch(r.epoch.value));
      assert [] + [Epoch(r.epoch.value)] == [Epoch(r.epoch.value)];
      uri := Extend(uri, base, [Epoch(r.epoch.value)], After(r.after.value));
    }
    ghost var c := if r.controlled then [CONTROL] else [];
    ghost var s := if r.snapshot then [SNAPSHOT] else [];
    ghost var o := if r.observer then [OBSERVER] else [];
    uri := ExtendIf(uri, base, position, r.controlled, CONTROL);
    uri := ExtendIf(uri, base, position + c, r.snapshot, SNAPSHOT);
    uri := ExtendIf(uri, base, position + c + s, r.observer, OBSERVER);
    Associative(position + c, s, o);
    Associative(position, c, s + o);
  }

  // ----- Taking an address apart

  /** The text before the first of some characters, and what follows from it. */
  function Until(s: string, stop: set<char>): (r: (string, string))
    decreases |s|
  {
    if s == [] || s[0] in stop then ([], s)
    else
      var (before, rest) := Until(s[1..], stop);
      ([s[0]] + before, rest)
  }

  lemma {:induction false} UntilStops(a: string, b: string, stop: set<char>)
    requires forall i :: 0 <= i < |a| ==> a[i] !in stop
    requires b == [] || b[0] in stop
    ensures Until(a + b, stop) == (a, b)
    decreases |a|
  {
    if a == [] {
      assert a + b == b;
    } else {
      assert (a + b)[0] == a[0] && (a + b)[1..] == a[1..] + b;
      UntilStops(a[1..], b, stop);
      assert a == [a[0]] + a[1..];
    }
  }

  /** The pairs of a query that begins with `mark`. */
  function ParseQuery(s: string, mark: char): Option<seq<Pair>>
    decreases |s|
  {
    if s == [] then Some([])
    else if s[0] != mark then None
    else
      var (key, tail) := Until(s[1..], {'=', '&'});
      if tail == [] || tail[0] != '=' || |tail| > |s| then None
      else
        var (value, rest) := Until(tail[1..], {'&'});
        if |rest| >= |s| then None
        else
          match ParseQuery(rest, '&')
          case None => None
          case Some(pairs) => Some([Pair(key, value)] + pairs)
  }

  lemma {:induction false} ParseUndoesQuery(pairs: seq<Pair>, first: bool)
    requires SimplePairs(pairs)
    ensures ParseQuery(Query(pairs, first), if first then '?' else '&') == Some(pairs)
    decreases |pairs|
  {
    if pairs != [] {
      var p, rest := pairs[0], Query(pairs[1..], false);
      ParseUndoesQuery(pairs[1..], false);
      var tail := ['='] + (p.value + rest);
      var s := Query(pairs, first);
      assert s[1..] == p.key + tail && tail[1..] == p.value + rest;
      UntilStops(p.key, tail, {'=', '&'});
      UntilStops(p.value, rest, {'&'});
      assert pairs == [p] + pairs[1..];
    }
  }

  function Lookup(pairs: seq<Pair>, key: string): Option<string>
    decreases |pairs|
  {
    if pairs == [] then None else if pairs[0].key == key then Some(pairs[0].value) else Lookup(pairs[1..], key)
  }

  function ParseDecimal(s: string): Option<nat>
    decreases |s|
  {
    if s == [] then None
    else
      var n, digit := |s| - 1, s[|s| - 1];
      if !('0' <= digit <= '9') then None
      else if n == 0 then Some(digit as int - 0x30)
      else
        match ParseDecimal(s[..n])
        case None => None
        case Some(high) => Some(high * 10 + (digit as int - 0x30))
  }

  lemma {:induction false} ParseUndoesDecimal(n: nat)
    ensures ParseDecimal(Decimal(n)) == Some(n)
  {
    if n >= 10 {
      var s := Decimal(n);
      ParseUndoesDecimal(n / 10);
      assert s[..|s| - 1] == Decimal(n / 10);
    }
  }

  function DecodeOption(value: Option<string>): Option<text> {
    if value.Some? then DecodeId(value.value) else None
  }

  function NumberOption(value: Option<string>): Option<nat> {
    if value.Some? then ParseDecimal(value.value) else None
  }

  function RequestOf(id: text, pairs: seq<Pair>): Request {
    Request(id, DecodeOption(Lookup(pairs, "epoch")), NumberOption(Lookup(pairs, "after")),
            Lookup(pairs, "control") == Some("v2"), Lookup(pairs, "capabilities") == Some("vt-snapshot-v1"),
            Lookup(pairs, "observer") == Some("v1"))
  }

  function Decode(uri: string): Option<Request> {
    if !(PREFIX <= uri) then None
    else
      var (id, tail) := Until(uri[|PREFIX|..], {'/', '?'});
      if !(SUFFIX <= tail) || DecodeId(id).None? then None
      else
        match ParseQuery(tail[|SUFFIX|..], '?')
        case None => None
        case Some(pairs) => Some(RequestOf(DecodeId(id).value, pairs))
  }

  lemma {:induction false} LookupAppend(a: seq<Pair>, b: seq<Pair>, key: string)
    ensures Lookup(a + b, key) == if Lookup(a, key).Some? then Lookup(a, key) else Lookup(b, key)
    decreases |a|
  {
    if a == [] {
      assert a + b == b;
    } else {
      assert (a + b)[0] == a[0] && (a + b)[1..] == a[1..] + b;
      LookupAppend(a[1..], b, key);
    }
  }

  /** The only parameter under `key`, if `present`. */
  lemma {:induction false} FlagLookup(present: bool, pair: Pair, key: string)
    ensures
      Lookup(if present then [pair] else [], key) == if present && pair.key == key then Some(pair.value) else None
  {
    assert [pair][1..] == [];
  }

  lemma {:induction false} PositionLookup(r: Request, key: string)
    requires r.epoch.Some? && r.after.Some?
    ensures
      Lookup(Position(r), key) ==
      if key == "epoch" then Some(EncodeId(r.epoch.value))
      else if key == "after" then Some(Decimal(r.after.value))
      else None
  {
    var e, a := Epoch(r.epoch.value), After(r.after.value);
    LookupAppend([e], [a], key);
    FlagLookup(true, e, key);
    FlagLookup(true, a, key);
  }

  lemma {:induction false} Keys()
    ensures "epoch" != "after" && "epoch" != "control" && "epoch" != "capabilities" && "epoch" != "observer"
    ensures "after" != "control" && "after" != "capabilities" && "after" != "observer"
    ensures "control" != "capabilities" && "control" != "observer" && "capabilities" != "observer"
  {
    assert "epoch"[0] == 'e' && "after"[0] == 'a';
  }

  lemma {:induction false} ParametersLookup(r: Request, key: string)
    ensures
      Lookup(Parameters(r), key) ==
      if Lookup(Position(r), key).Some? then Lookup(Position(r), key)
      else if r.controlled && key == "control" then Some("v2")
      else if r.snapshot && key == "capabilities" then Some("vt-snapshot-v1")
      else if r.observer && key == "observer" then Some("v1")
      else None
  {
    var c := if r.controlled then [CONTROL] else [];
    var s := if r.snapshot then [SNAPSHOT] else [];
    var o := if r.observer then [OBSERVER] else [];
    LookupAppend(Position(r), c + (s + o), key);
    LookupAppend(c, s + o, key);
    LookupAppend(s, o, key);
    FlagLookup(r.controlled, CONTROL, key);
    FlagLookup(r.snapshot, SNAPSHOT, key);
    FlagLookup(r.observer, OBSERVER, key);
    Keys();
  }

  lemma {:induction false} FlagsSimple()
    ensures SimplePairs([CONTROL]) && SimplePairs([SNAPSHOT]) && SimplePairs([OBSERVER]) && SimplePairs([])
  {
  }

  lemma {:induction false} SimpleAppend(a: seq<Pair>, b: seq<Pair>)
    requires SimplePairs(a) && SimplePairs(b)
    ensures SimplePairs(a + b)
  {
  }

  lemma {:induction false} EpochSimple(epoch: text)
    ensures SimplePairs([Epoch(epoch)])
  {
    EncodedId(epoch);
    var s := EncodeId(epoch);
    forall i | 0 <= i < |s| ensures s[i] !in {'?', '&', '=', '/'} { assert Encoded(s[i]); }
    assert Simple("epoch");
  }

  lemma {:induction false} AfterSimple(after: nat)
    ensures SimplePairs([After(after)])
  {
    assert Simple("after");
  }

  lemma {:induction false} PositionSimple(r: Request)
    ensures SimplePairs(Position(r))
  {
    if r.epoch.Some? && r.after.Some? {
      EpochSimple(r.epoch.value);
      AfterSimple(r.after.value);
      SimpleAppend([Epoch(r.epoch.value)], [After(r.after.value)]);
    }
  }

  lemma {:induction false} ParametersSimple(r: Request)
    ensures SimplePairs(Parameters(r))
  {
    var c := if r.controlled then [CONTROL] else [];
    var s := if r.snapshot then [SNAPSHOT] else [];
    var o := if r.observer then [OBSERVER] else [];
    FlagsSimple();
    PositionSimple(r);
    SimpleAppend(s, o);
    SimpleAppend(c, s + o);
    SimpleAppend(Position(r), c + (s + o));
  }

  lemma {:induction false} RequestRecovered(r: Request)
    ensures RequestOf(r.id, Parameters(r)) == r.Normal()
  {
    Keys();
    ParametersLookup(r, "epoch");
    ParametersLookup(r, "after");
    ParametersLookup(r, "control");
    ParametersLookup(r, "capabilities");
    ParametersLookup(r, "observer");
    if r.epoch.Some? && r.after.Some? {
      PositionLookup(r, "epoch");
      PositionLookup(r, "after");
      PositionLookup(r, "control");
      PositionLookup(r, "capabilities");
      PositionLookup(r, "observer");
      EncodedId(r.epoch.value);
      ParseUndoesDecimal(r.after.value);
    }
  }

  /** Everything that was asked for can be read off the address. */
  lemma {:induction false} DecodeUndoesAddress(r: Request)
    ensures Decode(Address(r)) == Some(r.Normal())
  {
    var id, query := EncodeId(r.id), Query(Parameters(r), true);
    EncodedId(r.id);
    var tail := SUFFIX + query;
    Associative(PREFIX, id + SUFFIX, query);
    Associative(id, SUFFIX, query);
    assert Address(r) == PREFIX + (id + tail);
    assert Address(r)[|PREFIX|..] == id + tail && tail[|SUFFIX|..] == query;
    UntilStops(id, tail, {'/', '?'});
    ParametersSimple(r);
    ParseUndoesQuery(Parameters(r), true);
    RequestRecovered(r);
  }
}
