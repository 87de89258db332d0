/** The wire format of the Redis stand-in (src/simloom/_services.py:18-59): arrays of bulk strings, as in
    the Arrays and Bulk strings sections of the RESP2 specification. What is written is read back, one
    command or many. */
module Resp {
  import opened Wrappers
  import Redis

  const CRLF: Bytes := [13, 10]
  const NEWLINE: byte := 10
  const STAR: byte := 42
  const DOLLAR: byte := 36
  const MINUS: byte := 45

  // ---------------------------------------------------------------------------------------------
  // Decimal numbers
  // ---------------------------------------------------------------------------------------------

  predicate Digit(b: byte) {
    48 <= b <= 57
  }

  function ShowNat(n: nat): Bytes {
    (if n < 10 then [] else ShowNat(n / 10)) + [DigitFor(n % 10)]
  }

  function DigitFor(d: nat): byte
    requires d < 10
  {
    var code: int := 48 + d;
    code as byte
  }

  function Show(n: int): Bytes {
    if n < 0 then [MINUS] + ShowNat(-n) else ShowNat(n)
  }

  predicate AllDigits(s: Bytes) {
    forall b | b in s :: Digit(b)
  }

  function Value(s: Bytes): nat
    requires AllDigits(s)
  {
    if s == [] then 0 else
    var last := s[|s| - 1];
    assert last in s;
    10 * Value(s[..|s| - 1]) + (last as int - 48)
  }

  /** An optional minus sign and at least one digit; anything else raises ValueError. */
  function Parse(s: Bytes): Option<int> {
    var negative := s != [] && s[0] == MINUS;
    var digits := if negative then s[1..] else s;
    if digits == [] || !AllDigits(digits) then None
    else
      var value: int := Value(digits);
      Some(if negative then -value else value)
  }

  lemma {:induction false} ShowNatParses(n: nat)
    ensures ShowNat(n) != [] && AllDigits(ShowNat(n)) && Value(ShowNat(n)) == n
    decreases n
  {
    var before := if n < 10 then [] else ShowNat(n / 10);
    if n >= 10 {
      ShowNatParses(n / 10);
    }
    assert ShowNat(n)[..|before|] == before && ShowNat(n)[|before|] == DigitFor(n % 10);
  }

  /** Numbers survive being written and read back. */
  lemma ShowParses(n: int)
    ensures Parse(Show(n)) == Some(n)
    ensures NEWLINE !in Show(n)
  {
    ShowNatParses(if n < 0 then -n else n);
    if n < 0 {
      assert Show(n)[1..] == ShowNat(-n);
    } else {
      assert Show(n)[0] in Show(n);
    }
  }

  /** Decimal conversion is what the counters of the server need. */
  lemma DecimalRoundTrips()
    ensures Redis.Numerals(s => Parse(s), n => Show(n)).RoundTrips()
  {
    forall n ensures Parse(Show(n)) == Some(n) {
      ShowParses(n);
    }
  }

  // ---------------------------------------------------------------------------------------------
  // Writing
  // ---------------------------------------------------------------------------------------------

  function Header(mark: byte, n: int): Bytes {
    [mark] + Show(n) + CRLF
  }

  function Bulk(data: Bytes): Bytes {
    Header(DOLLAR, |data|) + data + CRLF
  }

  function Joined(items: seq<Bytes>): Bytes {
    if items == [] then [] else Bulk(items[0]) + Joined(items[1..])
  }

  /** A command, as clients send it. */
  function Array(items: seq<Bytes>): Bytes {
    Header(STAR, |items|) + Joined(items)
  }

  // ---------------------------------------------------------------------------------------------
  // Reading
  // ---------------------------------------------------------------------------------------------

  /** Up to and including the next newline, or everything that is left. */
  function LineOf(input: Bytes): (line: Bytes)
    ensures line <= input
    ensures input != [] ==> line != []
  {
    if input == [] || input[0] == NEWLINE then input[..if input == [] then 0 else 1]
    else [input[0]] + LineOf(input[1..])
  }

  /** The number between the mark and the last two bytes of a header line. */
  function HeaderNumber(line: Bytes): Option<int> {
    if |line| < 3 then None else Parse(line[1..|line| - 2])
  }

  /** What `_read_command` makes of the input, and what is left of it: nothing usable, which ends the
      connection; a line that is no array; or a command. */
  datatype Command = Closed | Inline(line: Bytes, rest: Bytes) | Args(args: seq<Bytes>, rest: Bytes)

  /** One bulk string; only the length of its header counts, not its mark. */
  function ItemOf(input: Bytes): Option<(Bytes, Bytes)> {
    var line := LineOf(input);
    var rest := input[|line|..];
    var length := HeaderNumber(line);
    if length.None? || length.value < 0 || |rest| < length.value + 2 then None
    else Some((rest[..length.value], rest[length.value + 2..]))
  }

  function ItemsOf(input: Bytes, count: nat): Option<(seq<Bytes>, Bytes)> {
    if count == 0 then Some(([], input)) else
    match ItemsOf(input, count - 1)
    case None => None
    case Some((items, rest)) =>
      match ItemOf(rest)
      case None => None
      case Some((item, rest')) => Some((items + [item], rest'))
  }

  function CommandOf(input: Bytes): Command {
    var line := LineOf(input);
    var rest := input[|line|..];
    if line == [] then Closed
    else if line[0] != STAR then Inline(line, rest)
    else
      var count := HeaderNumber(line);
      if count.None? then Closed else
      match ItemsOf(rest, if count.value < 0 then 0 else count.value)
      case None => Closed
      case Some((args, rest')) => Args(args, rest')
  }

  /** The stream a connection reads from; everything its peer ever sent is in `input`. */
  class Reader {
    var input: Bytes

    constructor (input: Bytes)
      ensures this.input == input
    {
      this.input := input;
    }

    method ReadLine() returns (line: Bytes)
      modifies this
      ensures line == LineOf(old(input)) && input == old(input)[|line|..]
    {
      ghost var before := input;
      line := [];
      while input != [] && input[0] != NEWLINE
        invariant LineOf(before) == line + LineOf(input) && before == line + input
        decreases |input|
      {
        line := line + [input[0]];
        input := input[1..];
      }
      if input != [] {
        line := line + [NEWLINE];
        input := input[1..];
      }
    }

    method ReadExactly(n: int) returns (r: Option<Bytes>)
      modifies this
      ensures r.Some? <==> 0 <= n <= |old(input)|
      ensures r.Some? ==> r.value == old(input)[..n] && input == old(input)[n..]
    {
      if n < 0 || n > |input| {
        return None;
      }
      r := Some(input[..n]);
      input := input[n..];
    }

    method ReadBulk() returns (r: Option<Bytes>)
      modifies this
      ensures match ItemOf(old(input))
              case None => r.None?
              case Some((item, rest)) => r == Some(item) && input == rest
    {
      var header := ReadLine();
      var length := HeaderNumber(header);
      if length.None? {
        return None;
      }
      r := ReadExactly(length.value);
      if r.Some? {
        var end := ReadExactly(2);
        if end.None? {
          return None;
        }
      }
    }

    /** `_read_command`. */
    method ReadCommand() returns (r: Command)
      modifies this
      ensures r == CommandOf(old(input))
      ensures !r.Closed? ==> input == r.rest
    {
      var line := ReadLine();
      if line == [] {
        return Closed;
      }
      if line[0] != STAR {
        return Inline(line, input);
      }
      var count := HeaderNumber(line);
      if count.None? {
        return Closed;
      }
      var args := ReadBulks(if count.value < 0 then 0 else count.value);
      return if args.None? then Closed else Args(args.value, input);
    }

    method ReadBulks(count: nat) returns (r: Option<seq<Bytes>>)
      modifies this
      ensures match ItemsOf(old(input), count)
              case None => r.None?
              case Some((items, rest)) => r == Some(items) && input == rest
    {
      var args: seq<Bytes> := [];
      var i := 0;
      ghost var start := input;
      while i < count
        invariant i <= count && ItemsOf(start, i) == Some((args, input))
      {
        var item := ReadBulk();
        if item.None? {
          ReadItemsStops(start, i + 1, count);
          return None;
        }
        args := args + [item.value];
        i := i + 1;
      }
      return Some(args);
    }
  }

  lemma {:induction false} ReadItemsStops(input: Bytes, i: nat, count: nat)
    requires i <= count && ItemsOf(input, i).None?
    ensures ItemsOf(input, count).None?
  {
    if i < count {
      ReadItemsStops(input, i, count - 1);
    }
  }

  // ---------------------------------------------------------------------------------------------
  // Round trips
  // ---------------------------------------------------------------------------------------------

  lemma {:induction false} LineEnds(text: Bytes, rest: Bytes)
    requires NEWLINE !in text
    ensures LineOf(text + [NEWLINE] + rest) == text + [NEWLINE]
  {
    if text == [] {
      assert text + [NEWLINE] + rest == [NEWLINE] + rest;
    } else {
      LineEnds(text[1..], rest);
      assert (text + [NEWLINE] + rest)[1..] == text[1..] + [NEWLINE] + rest;
      assert text + [NEWLINE] == [text[0]] + (text[1..] + [NEWLINE]);
    }
  }

  lemma HeaderReads(input: Bytes, mark: byte, n: int, rest: Bytes)
    requires mark != NEWLINE && input == Header(mark, n) + rest
    ensures
      var line := LineOf(input);
      line == Header(mark, n) && HeaderNumber(line) == Some(n) && input[|line|..] == rest
  {
    var header := Header(mark, n);
    var text := [mark] + Show(n) + [13];
    assert header == text + [NEWLINE];
    assert LineOf(input) == header by {
      ShowParses(n);
      LineEnds(text, rest);
    }
    assert HeaderNumber(header) == Some(n) by {
      assert header[1..|header| - 2] == Show(n);
      ShowParses(n);
    }
  }

  /** A bulk string is read back whole, whatever bytes it holds, newlines included. */
  lemma BulkReads(input: Bytes, data: Bytes, rest: Bytes)
    requires input == Bulk(data) + rest
    ensures ItemOf(input) == Some((data, rest))
  {
    var more := data + CRLF + rest;
    assert Bulk(data) + rest == Header(DOLLAR, |data|) + more;
    HeaderReads(input, DOLLAR, |data|, more);
    assert more[..|data|] == data && more[|data| + 2..] == rest;
  }

  lemma Regroup(a: Bytes, b: Bytes, c: Bytes)
    ensures (a + b) + c == a + (b + c)
  {
  }

  /** What is left of the input once `i` items have been read. */
  ghost function Left(items: seq<Bytes>, i: nat, rest: Bytes): Bytes {
    if i >= |items| then rest else Joined(items[i..]) + rest
  }

  lemma ItemReads(items: seq<Bytes>, i: nat, rest: Bytes)
    requires i < |items|
    ensures ItemOf(Left(items, i, rest)) == Some((items[i], Left(items, i + 1, rest)))
  {
    var later := items[i..][1..];
    assert later == items[i + 1..];
    Regroup(Bulk(items[i]), Joined(later), rest);
    assert i + 1 == |items| ==> Joined(later) + rest == rest;
    BulkReads(Left(items, i, rest), items[i], Left(items, i + 1, rest));
  }

  lemma {:induction false} ItemsRead(left: nat -> Bytes, items: seq<Bytes>, i: nat)
    requires i <= |items|
    requires forall k: nat | k < |items| :: ItemOf(left(k)) == Some((items[k], left(k + 1)))
    ensures ItemsOf(left(0), i) == Some((items[..i], left(i)))
  {
    if i > 0 {
      ItemsRead(left, items, i - 1);
      assert ItemOf(left(i - 1)) == Some((items[i - 1], left(i - 1 + 1)));
      assert items[..i] == items[..i - 1] + [items[i - 1]];
    }
  }

  lemma JoinedReads(items: seq<Bytes>, rest: Bytes)
    ensures ItemsOf(Joined(items) + rest, |items|) == Some((items, rest))
  {
    var left := (i: nat) => Left(items, i, rest);
    forall k: nat | k < |items| ensures ItemOf(left(k)) == Some((items[k], left(k + 1))) {
      ItemReads(items, k, rest);
    }
    ItemsRead(left, items, |items|);
    assert items[..|items|] == items[0..] == items;
    assert left(0) == Joined(items) + rest;
  }

  /** A command survives the wire, and takes nothing of what follows it. */
  lemma CommandReads(args: seq<Bytes>, rest: Bytes)
    ensures CommandOf(Array(args) + rest) == Args(args, rest)
  {
    var input := Array(args) + rest;
    var more := Joined(args) + rest;
    Regroup(Header(STAR, |args|), Joined(args), rest);
    HeaderReads(input, STAR, |args|, more);
    JoinedReads(args, rest);
  }

  // --- pipelines ---

  function Pipeline(commands: seq<seq<Bytes>>): Bytes {
    if commands == [] then [] else Array(commands[0]) + Pipeline(commands[1..])
  }

  /** The commands read one after the other, up to a line that is no array or the end of the stream. */
  function Received(input: Bytes): seq<seq<Bytes>>
    decreases |input|
  {
    match CommandOf(input)
    case Closed => []
    case Inline(_, _) => []
    case Args(args, rest) => if |rest| < |input| then [args] + Received(rest) else []
  }

  /** Whatever is pipelined arrives as the same commands in the same order. */
  lemma {:induction false} PipelineArrives(commands: seq<seq<Bytes>>)
    ensures Received(Pipeline(commands)) == commands
  {
    if commands != [] {
      CommandReads(commands[0], Pipeline(commands[1..]));
      PipelineArrives(commands[1..]);
    } else {
      assert LineOf([]) == [];
    }
  }

  /** No two pipelines look the same on the wire. */
  lemma PipelinesDiffer(a: seq<seq<Bytes>>, b: seq<seq<Bytes>>)
    requires Pipeline(a) == Pipeline(b)
    ensures a == b
  {
    PipelineArrives(a);
    PipelineArrives(b);
  }
}
