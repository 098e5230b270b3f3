/**
 What the engine writes as text: the names of table files, and the marker of a
 pending merge. Both are read back as they were written.
 */
module Names {
  import opened Bytes
  import opened Records

  // ---------- decimal numbers ----------

  predicate IsDigit(c: char)
  {
    '0' <= c <= '9'
  }

  function DigitOf(n: nat): (c: char)
    requires n < 10
    ensures IsDigit(c) && ValueOf(c) == n
  {
    '0' + n as char
  }

  function ValueOf(c: char): (n: nat)
    requires IsDigit(c)
    ensures n < 10
  {
    (c - '0') as nat
  }

  predicate AllDigits(s: string)
  {
    forall c | c in s :: IsDigit(c)
  }

  /** `to_string`. */
  function Decimal(n: nat): (s: string)
    ensures s != "" && AllDigits(s)
  {
    if n < 10 then [DigitOf(n)] else Decimal(n / 10) + [DigitOf(n % 10)]
  }

  function Zeros(count: nat): (s: string)
    ensures |s| == count && AllDigits(s)
  {
    if count == 0 then "" else "0" + Zeros(count - 1)
  }

  /** `{:06}`. */
  function SixDigits(n: nat): (s: string)
    ensures s != "" && AllDigits(s)
  {
    var s := Decimal(n);
    (if |s| < 6 then Zeros(6 - |s|) else "") + s
  }

  function Value(s: string): nat
    requires AllDigits(s)
    decreases |s|
  {
    if s == "" then 0 else 10 * Value(s[..|s| - 1]) + ValueOf(s[|s| - 1])
  }

  /** `parse` for an unsigned integer: digits after an optional plus, and no overflow. */
  function ParseUnsigned(s: string, modulus: nat): Option<nat>
  {
    var digits := if |s| > 1 && s[0] == '+' then s[1..] else s;
    if digits != "" && AllDigits(digits) && Value(digits) < modulus then Some(Value(digits)) else None
  }

  /** Digits are read in base ten. */
  lemma DigitsAreDecimal(s: string, c: char)
    requires AllDigits(s) && IsDigit(c)
    ensures Value("") == 0 && Value(s + [c]) == 10 * Value(s) + (c as int - '0' as int)
  {
    assert (s + [c])[..|s|] == s;
  }

  lemma {:induction false} DecimalValue(n: nat)
    ensures Value(Decimal(n)) == n
  {
    if n >= 10 {
      DecimalValue(n / 10);
      assert Decimal(n)[..|Decimal(n)| - 1] == Decimal(n / 10);
    } else {
      assert Decimal(n)[..0] == "";
    }
  }

  lemma {:induction false} LeadingZeros(count: nat, s: string)
    requires AllDigits(s)
    ensures Value(Zeros(count) + s) == Value(s)
    decreases |s|, count
  {
    if s != "" {
      assert (Zeros(count) + s)[..count + |s| - 1] == Zeros(count) + s[..|s| - 1];
      LeadingZeros(count, s[..|s| - 1]);
    } else if count > 0 {
      assert Zeros(count) == Zeros(count - 1) + "0" by {
        ZerosEnd(count);
      }
      assert (Zeros(count) + s)[..count - 1] == Zeros(count - 1) + "";
      LeadingZeros(count - 1, "");
    }
  }

  lemma {:induction false} ZerosEnd(count: nat)
    requires count > 0
    ensures Zeros(count) == Zeros(count - 1) + "0"
  {
    if count > 1 {
      ZerosEnd(count - 1);
    }
  }

  lemma DigitsParse(s: string, modulus: nat)
    requires s != "" && AllDigits(s)
    ensures ParseUnsigned(s, modulus) == if Value(s) < modulus then Some(Value(s)) else None
  {
    assert s[0] in s;
  }

  lemma SixDigitsValue(n: nat)
    ensures Value(SixDigits(n)) == n
  {
    DecimalValue(n);
    var s := Decimal(n);
    if |s| < 6 {
      LeadingZeros(6 - |s|, s);
    } else {
      assert "" + s == s;
    }
  }

  // ---------- cutting text ----------

  function StripPrefix(s: string, prefix: string): Option<string>
  {
    if prefix <= s then Some(s[|prefix|..]) else None
  }

  function StripSuffix(s: string, suffix: string): Option<string>
  {
    if |suffix| <= |s| && s[|s| - |suffix|..] == suffix then Some(s[..|s| - |suffix|]) else None
  }

  /** `split`. */
  function Split(s: string, c: char): (parts: seq<string>)
    ensures parts != []
    decreases |s|
  {
    if s == "" then [""]
    else
      var rest := Split(s[1..], c);
      if s[0] == c then [""] + rest else [[s[0]] + rest[0]] + rest[1..]
  }

  /** `split_once`. */
  function SplitOnce(s: string, c: char): Option<(string, string)>
    decreases |s|
  {
    if s == "" then None
    else if s[0] == c then Some(("", s[1..]))
    else
      match SplitOnce(s[1..], c)
      case None => None
      case Some((a, b)) => Some(([s[0]] + a, b))
  }

  lemma {:induction false} SplitOnceAt(a: string, c: char, b: string)
    requires c !in a
    ensures SplitOnce(a + [c] + b, c) == Some((a, b))
    decreases |a|
  {
    if a == "" {
      assert a + [c] + b == [c] + b && ([c] + b)[1..] == b;
    } else {
      assert (a + [c] + b)[1..] == a[1..] + [c] + b;
      assert a[0] in a && [a[0]] + a[1..] == a;
      SplitOnceAt(a[1..], c, b);
    }
  }

  lemma {:induction false} SplitAt(a: string, c: char, b: string)
    requires c !in a
    ensures Split(a + [c] + b, c) == [a] + Split(b, c)
    decreases |a|
  {
    if a == "" {
      assert a + [c] + b == [c] + b && ([c] + b)[1..] == b;
    } else {
      assert (a + [c] + b)[1..] == a[1..] + [c] + b;
      assert a[0] in a && [a[0]] + a[1..] == a;
      SplitAt(a[1..], c, b);
    }
  }

  lemma {:induction false} SplitNowhere(a: string, c: char)
    requires c !in a
    ensures Split(a, c) == [a]
    decreases |a|
  {
    if a != "" {
      SplitNowhere(a[1..], c);
      assert [a[0]] + a[1..] == a;
    }
  }

  // ---------- file names ----------

  function FileName(level: nat, id: nat): string
  {
    "sstable_L" + Decimal(level) + "_" + SixDigits(id) + ".sst"
  }

  /** The name that a table of L0 had before there were levels. */
  function LegacyName(id: nat): string
  {
    "sstable_" + SixDigits(id) + ".sst"
  }

  /** `parse_sstable_file_name`: the id and the level; a name without a level is one of level 0. */
  function ParseFileName(name: string): Option<(nat, nat)>
  {
    match StripPrefix(name, "sstable_")
    case None => None
    case Some(tail) =>
      match StripSuffix(tail, ".sst")
      case None => None
      case Some(stem) =>
        match StripPrefix(stem, "L")
        case None => Pair(ParseUnsigned(stem, U64_MODULUS), Some(0))
        case Some(rest) =>
          match SplitOnce(rest, '_')
          case None => None
          case Some((level, id)) => Pair(ParseUnsigned(id, U64_MODULUS), ParseUnsigned(level, U32_MODULUS))
  }

  function Pair(id: Option<nat>, level: Option<nat>): Option<(nat, nat)>
  {
    if id.Some? && level.Some? then Some((id.value, level.value)) else None
  }

  /** A number is written in decimal digits, without a zero in front; an id has at least six of them. */
  lemma {:induction false} DecimalIs(n: nat)
    ensures AllDigits(Decimal(n)) && Value(Decimal(n)) == n && Decimal(n) != ""
    ensures Decimal(n)[0] == '0' ==> n == 0
    ensures n == 0 ==> Decimal(n) == "0"
  {
    DecimalValue(n);
    if n >= 10 {
      DecimalIs(n / 10);
    }
  }

  /** "sstable_L", the level, "_", the id in at least six digits, ".sst". */
  lemma FileNameIs(level: nat, id: nat)
    ensures exists l, i ::
              && FileName(level, id) == "sstable_L" + l + "_" + i + ".sst"
              && l != "" && AllDigits(l) && Value(l) == level && (l[0] == '0' ==> l == "0")
              && |i| >= 6 && AllDigits(i) && Value(i) == id && (i[0] == '0' ==> |i| == 6)
  {
    hide Value, Decimal;
    DecimalIs(level);
    DecimalIs(id);
    SixDigitsValue(id);
    var l, i := Decimal(level), SixDigits(id);
    assert |i| >= 6;
    assert i[0] == '0' ==> |i| == 6;
  }

  /** A file is found again under its id and level exactly when they fit in a u64 and a u32. */
  lemma FileNameRoundTripIffFits(level: nat, id: nat)
    ensures ParseFileName(FileName(level, id)) == Some((id, level)) <==> level < U32_MODULUS && id < U64_MODULUS
    ensures ParseFileName(FileName(level, id)) == None <==> level >= U32_MODULUS || id >= U64_MODULUS
  {
    hide Decimal, SixDigits, Value;
    var l, i := Decimal(level), SixDigits(id);
    var name := FileName(level, id);
    var stem := "L" + l + "_" + i;
    assert name[|"sstable_"|..] == stem + ".sst";
    assert (stem + ".sst")[..|stem|] == stem && (stem + ".sst")[|stem|..] == ".sst";
    assert stem[1..] == l + ['_'] + i;
    SplitOnceAt(l, '_', i);
    DigitsParse(l, U32_MODULUS);
    DigitsParse(i, U64_MODULUS);
    DecimalValue(level);
    SixDigitsValue(id);
  }

  /** A name without a level, whatever number of digits it has, is the name of a table of L0. */
  lemma NoLevelIsZero(digits: string)
    requires digits != "" && AllDigits(digits)
    ensures ParseFileName("sstable_" + digits + ".sst")
         == if Value(digits) < U64_MODULUS then Some((Value(digits), 0)) else None
  {
    hide Value;
    var name := "sstable_" + digits + ".sst";
    assert name[|"sstable_"|..] == digits + ".sst";
    assert (digits + ".sst")[..|digits|] == digits && (digits + ".sst")[|digits|..] == ".sst";
    assert digits[0] in digits;
    DigitsParse(digits, U64_MODULUS);
  }

  lemma LegacyNameParses(id: nat)
    ensures ParseFileName(LegacyName(id)) == if id < U64_MODULUS then Some((id, 0)) else None
  {
    hide SixDigits, ParseFileName;
    NoLevelIsZero(SixDigits(id));
    SixDigitsValue(id);
  }

  /** Nothing else is taken for a table. */
  lemma OnlyTableNamesParse(name: string)
    ensures ParseFileName(name).Some? ==>
              && "sstable_" <= name && |name| > |"sstable_.sst"| && name[|name| - 4..] == ".sst"
              && ParseFileName(name).value.0 < U64_MODULUS && ParseFileName(name).value.1 < U32_MODULUS
  {
    hide Value, SplitOnce;
  }

  /** An unfinished file is never taken for a table. */
  lemma TmpIsNoTable(name: string)
    ensures ParseFileName(name + ".tmp") == None
  {
    var tmp := name + ".tmp";
    if "sstable_" <= tmp {
      var tail := tmp[8..];
      if |tail| >= 4 {
        assert tail[|tail| - 1] == tmp[|tmp| - 1] == 'p';
        assert tail[|tail| - 4..][3] == 'p';
      }
    }
  }

  // ---------- the marker ----------

  function Join(parts: seq<string>): string
    decreases |parts|
  {
    if parts == [] then ""
    else if |parts| == 1 then parts[0]
    else parts[0] + "," + Join(parts[1..])
  }

  function Decimals(ids: seq<nat>): (parts: seq<string>)
    ensures |parts| == |ids|
    decreases |ids|
  {
    if ids == [] then [] else [Decimal(ids[0])] + Decimals(ids[1..])
  }

  /** `join_ids`. */
  function JoinIds(ids: seq<nat>): string
  {
    Join(Decimals(ids))
  }

  function MarkerText(outputs: seq<nat>, inputs: seq<nat>): string
  {
    "outputs: " + JoinIds(outputs) + "\ninputs: " + JoinIds(inputs) + "\n"
  }

  predicate IsSpace(c: char)
  {
    c == ' ' || '\t' <= c <= '\r'
  }

  function TrimStart(s: string): string
    decreases |s|
  {
    if s != "" && IsSpace(s[0]) then TrimStart(s[1..]) else s
  }

  function TrimEnd(s: string): string
    decreases |s|
  {
    if s != "" && IsSpace(s[|s| - 1]) then TrimEnd(s[..|s| - 1]) else s
  }

  function IdsIn(parts: seq<string>): seq<nat>
    decreases |parts|
  {
    if parts == [] then []
    else
      var id := ParseUnsigned(TrimEnd(TrimStart(parts[0])), U64_MODULUS);
      (if id.Some? then [id.value] else []) + IdsIn(parts[1..])
  }

  /** `parse_ids`. */
  function ParseIds(text: string): seq<nat>
  {
    IdsIn(Split(text, ','))
  }

  /** `lines`: without the empty piece behind the last newline, and without carriage returns. */
  function Lines(content: string): seq<string>
  {
    var parts := Split(content, '\n');
    var last := |parts| - 1;
    WithoutReturns(if parts[last] == "" then parts[..last] else parts)
  }

  function WithoutReturns(parts: seq<string>): seq<string>
    decreases |parts|
  {
    if parts == [] then []
    else
      var line := StripSuffix(parts[0], "\r");
      [if line.Some? then line.value else parts[0]] + WithoutReturns(parts[1..])
  }

  datatype MarkerIds = MarkerIds(outputs: seq<nat>, inputs: seq<nat>) {
    function WithLine(line: string): MarkerIds
    {
      if "outputs:" <= line then this.(outputs := ParseIds(line[8..]))
      else if "inputs:" <= line then this.(inputs := ParseIds(line[7..]))
      else this
    }
  }

  function AfterLines(lines: seq<string>): MarkerIds
    decreases |lines|
  {
    if lines == [] then MarkerIds([], [])
    else AfterLines(lines[..|lines| - 1]).WithLine(lines[|lines| - 1])
  }

  /** `read_pending_merge`, given the content of the marker. */
  method ReadMarker(content: string) returns (marker: MarkerIds)
    ensures marker == AfterLines(Lines(content))
  {
    marker := MarkerIds([], []);
    var lines := Lines(content);
    var i := 0;
    while i < |lines|
      invariant 0 <= i <= |lines|
      invariant marker == AfterLines(lines[..i])
    {
      assert lines[..i + 1][..i] == lines[..i];
      marker := marker.WithLine(lines[i]);
      i := i + 1;
    }
    assert lines[..i] == lines;
  }

  lemma {:induction false} SplitJoin(parts: seq<string>)
    requires parts != [] && forall p | p in parts :: ',' !in p
    ensures Split(Join(parts), ',') == parts
    decreases |parts|
  {
    if |parts| == 1 {
      SplitNowhere(parts[0], ',');
    } else {
      assert parts[0] in parts;
      SplitAt(parts[0], ',', Join(parts[1..]));
      SplitJoin(parts[1..]);
      assert parts == [parts[0]] + parts[1..];
    }
  }

  lemma {:induction false} DecimalsHaveNo(ids: seq<nat>, c: char)
    requires !IsDigit(c)
    ensures forall p | p in Decimals(ids) :: c !in p
    decreases |ids|
  {
    if ids != [] {
      DecimalsHaveNo(ids[1..], c);
    }
  }

  /** The ids of a marker are decimal numbers with commas between them. */
  lemma IdsAreListed(ids: seq<nat>)
    ensures ids == [] ==> JoinIds(ids) == ""
    ensures ids != [] ==>
              && |Split(JoinIds(ids), ',')| == |ids|
              && forall k | 0 <= k < |ids| ::
                   var part := Split(JoinIds(ids), ',')[k];
                   part != "" && AllDigits(part) && Value(part) == ids[k] && (part[0] == '0' ==> part == "0")
  {
    hide Value, Split, Decimal;
    DecimalsHaveNo(ids, ',');
    if ids != [] {
      SplitJoin(Decimals(ids));
    }
    EachDecimal(ids);
  }

  lemma {:induction false} EachDecimal(ids: seq<nat>)
    ensures forall k | 0 <= k < |ids| ::
              var part := Decimals(ids)[k];
              part != "" && AllDigits(part) && Value(part) == ids[k] && (part[0] == '0' ==> part == "0")
    decreases |ids|
  {
    hide Value, Decimal;
    if ids != [] {
      DecimalIs(ids[0]);
      EachDecimal(ids[1..]);
    }
  }

  lemma TrimDigits(s: string)
    requires s != "" && AllDigits(s)
    ensures TrimEnd(TrimStart(s)) == s && TrimEnd(TrimStart(" " + s)) == s
  {
    assert s[0] in s && s[|s| - 1] in s;
    assert (" " + s)[1..] == s;
  }

  lemma {:induction false} DecimalsParse(ids: seq<nat>)
    requires forall id | id in ids :: id < U64_MODULUS
    ensures IdsIn(Decimals(ids)) == ids
    decreases |ids|
  {
    hide ParseUnsigned, TrimStart, TrimEnd, Decimal;
    if ids != [] {
      assert ids[0] in ids && forall id | id in ids[1..] :: id in ids;
      OneParses(ids[0], Decimal(ids[0]));
      DecimalsParse(ids[1..]);
      assert ids == [ids[0]] + ids[1..];
    }
  }

  lemma OneParses(id: nat, text: string)
    requires id < U64_MODULUS && (text == Decimal(id) || text == " " + Decimal(id))
    ensures ParseUnsigned(TrimEnd(TrimStart(text)), U64_MODULUS) == Some(id)
  {
    TrimDigits(Decimal(id));
    DigitsParse(Decimal(id), U64_MODULUS);
    DecimalValue(id);
  }

  /** A list of ids, with the space in front, is read back. */
  lemma IdsRoundTrip(ids: seq<nat>)
    requires forall id | id in ids :: id < U64_MODULUS
    ensures ParseIds(" " + JoinIds(ids)) == ids
  {
    hide Decimal, ParseUnsigned, TrimEnd, TrimStart, IdsIn, Split;
    var parts := Decimals(ids);
    if ids == [] {
      NoIds();
    } else {
      DecimalsHaveNo(ids, ',');
      var spaced := [" " + parts[0]] + parts[1..];
      assert Join(spaced) == " " + Join(parts);
      SplitJoin(spaced);
      assert ids[0] in ids && forall id | id in ids[1..] :: id in ids;
      OneParses(ids[0], " " + parts[0]);
      DecimalsParse(ids[1..]);
      IdsInFirst(spaced, ids[0]);
      assert ids == [ids[0]] + ids[1..];
    }
  }

  lemma NoIds()
    ensures ParseIds(" " + JoinIds([])) == []
  {
    assert " " + "" == " ";
    SplitNowhere(" ", ',');
    assert TrimStart(" ") == TrimStart("") == "";
  }

  lemma IdsInFirst(parts: seq<string>, id: nat)
    requires parts != [] && ParseUnsigned(TrimEnd(TrimStart(parts[0])), U64_MODULUS) == Some(id)
    ensures IdsIn(parts) == [id] + IdsIn(parts[1..])
  {
  }

  lemma {:induction false} JoinHasNo(parts: seq<string>, c: char)
    requires c != ',' && forall p | p in parts :: c !in p
    ensures c !in Join(parts)
    decreases |parts|
  {
    if |parts| > 1 {
      JoinHasNo(parts[1..], c);
    } else if |parts| == 1 {
      assert parts[0] in parts;
    }
  }

  lemma IdsHaveNo(ids: seq<nat>, c: char)
    requires !IsDigit(c) && c != ','
    ensures c !in JoinIds(ids)
  {
    DecimalsHaveNo(ids, c);
    JoinHasNo(Decimals(ids), c);
  }

  lemma LineKept(line: string, lines: seq<string>)
    requires '\r' !in line
    ensures WithoutReturns([line] + lines) == [line] + WithoutReturns(lines)
  {
    if line != "" {
      assert line[|line| - 1..][0] == line[|line| - 1];
      assert line[|line| - 1] in line;
    }
    assert ([line] + lines)[1..] == lines;
  }

  lemma MarkerLines(outputs: seq<nat>, inputs: seq<nat>)
    ensures Lines(MarkerText(outputs, inputs)) == ["outputs: " + JoinIds(outputs), "inputs: " + JoinIds(inputs)]
  {
    hide JoinIds, Split, WithoutReturns;
    var o, i := "outputs: " + JoinIds(outputs), "inputs: " + JoinIds(inputs);
    IdsHaveNo(outputs, '\n');
    IdsHaveNo(inputs, '\n');
    IdsHaveNo(outputs, '\r');
    IdsHaveNo(inputs, '\r');
    var content := MarkerText(outputs, inputs);
    assert content == o + ['\n'] + (i + ['\n'] + "");
    SplitAt(o, '\n', i + ['\n'] + "");
    SplitAt(i, '\n', "");
    SplitNowhere("", '\n');
    assert Split(content, '\n') == [o, i, ""];
    assert [o, i, ""][..2] == [o] + [i];
    LineKept(o, [i]);
    LineKept(i, []);
    assert [i] + [] == [i];
    NoLines();
  }

  lemma NoLines()
    ensures WithoutReturns([]) == []
  {
  }

  /** The marker names exactly the outputs and the inputs it was written with. */
  lemma MarkerRoundTrip(outputs: seq<nat>, inputs: seq<nat>)
    requires forall id | id in outputs || id in inputs :: id < U64_MODULUS
    ensures AfterLines(Lines(MarkerText(outputs, inputs))) == MarkerIds(outputs, inputs)
  {
    hide JoinIds, ParseIds, Lines, MarkerText;
    var o, i := "outputs: " + JoinIds(outputs), "inputs: " + JoinIds(inputs);
    MarkerLines(outputs, inputs);
    IdsRoundTrip(outputs);
    IdsRoundTrip(inputs);
    assert o[8..] == " " + JoinIds(outputs) && i[7..] == " " + JoinIds(inputs);
    assert i[0] == 'i';
    var none: seq<string> := [];
    assert [o, i][..1] == [o] && [o][..0] == none;
  }
}
