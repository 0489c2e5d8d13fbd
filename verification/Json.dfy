/**
 The payload that is hashed into a key: pairs of strings as compact ASCII JSON (core/key_hasher.py),
 written the way json.dumps does with separators (",", ":") and ensure_ascii, and a reader for that
 fragment of JSON following sections 7 and 8.2 of RFC 8259. Strings are Python's: sequences of code
 points, in which a surrogate may stand alone.
 */
module Json {
  import opened RuleParams

  type CodePoint = n: nat | n < 0x110000

  type PyString = seq<CodePoint>

  type Pair = (PyString, PyString)

  predicate High(n: nat) {
    0xd800 <= n < 0xdc00
  }

  predicate Low(n: nat) {
    0xdc00 <= n < 0xe000
  }

  /** The code point that two surrogates stand for together. */
  function Joined(high: nat, low: nat): CodePoint
    requires High(high) && Low(low)
  {
    0x10000 + (high - 0xd800) * 0x400 + (low - 0xdc00)
  }

  // ---------------------------------------------------------------- writing

  function HexDigit(n: nat): char
    requires n < 16
  {
    if n < 10 then '0' + n as char else 'a' + (n - 10) as char
  }

  function Unit(n: nat): (r: string)
    requires n < 0x10000
    ensures |r| == 6 && r[0] == '\\'
  {
    ['\\', 'u', HexDigit(n / 0x1000), HexDigit(n / 0x100 % 16), HexDigit(n / 0x10 % 16), HexDigit(n % 16)]
  }

  /** One code point: the short escapes, printable ASCII as it is, anything else by code unit, in two
      surrogates beyond the basic plane. */
  function EscapeChar(n: CodePoint): string {
    if n == '"' as nat then ['\\', '"']
    else if n == '\\' as nat then ['\\', '\\']
    else if n == 0x08 then ['\\', 'b']
    else if n == 0x0c then ['\\', 'f']
    else if n == 0x0a then ['\\', 'n']
    else if n == 0x0d then ['\\', 'r']
    else if n == 0x09 then ['\\', 't']
    else if ' ' as nat <= n <= '~' as nat then [n as char]
    else if n < 0x10000 then Unit(n)
    else Unit(0xd800 + (n - 0x10000) / 0x400) + Unit(0xdc00 + (n - 0x10000) % 0x400)
  }

  function Escape(s: PyString): string {
    if s == [] then [] else EscapeChar(s[0]) + Escape(s[1..])
  }

  function WriteString(s: PyString): string {
    ['"'] + Escape(s) + ['"']
  }

  function WritePair(p: Pair): string {
    ['['] + WriteString(p.0) + [','] + WriteString(p.1) + [']']
  }

  function WriteItems(pairs: seq<Pair>): string {
    if pairs == [] then []
    else if |pairs| == 1 then WritePair(pairs[0])
    else WritePair(pairs[0]) + [','] + WriteItems(pairs[1..])
  }

  function Write(pairs: seq<Pair>): string {
    ['['] + WriteItems(pairs) + [']']
  }

  // ---------------------------------------------------------------- reading

  function HexValue(c: char): (r: Option<nat>)
    ensures r.Some? ==> r.value < 16
  {
    if '0' <= c <= '9' then Some(c as int - '0' as int)
    else if 'a' <= c <= 'f' then Some(c as int - 'a' as int + 10)
    else if 'A' <= c <= 'F' then Some(c as int - 'A' as int + 10)
    else None
  }

  /** A code unit spelled \uXXXX at the head of the text. */
  function ReadUnit(s: string): (r: Option<nat>)
    ensures r.Some? ==> |s| >= 6 && r.value < 0x10000
  {
    if |s| < 6 || s[0] != '\\' || s[1] != 'u' then None
    else
      var a, b, c, d := HexValue(s[2]), HexValue(s[3]), HexValue(s[4]), HexValue(s[5]);
      if a.Some? && b.Some? && c.Some? && d.Some?
      then Some(a.value * 0x1000 + b.value * 0x100 + c.value * 0x10 + d.value) else None
  }

  function ShortEscape(c: char): Option<CodePoint> {
    if c == '"' || c == '\\' || c == '/' then Some(c as nat)
    else if c == 'b' then Some(0x08)
    else if c == 'f' then Some(0x0c)
    else if c == 'n' then Some(0x0a)
    else if c == 'r' then Some(0x0d)
    else if c == 't' then Some(0x09)
    else None
  }

  /** One code point of a string and the length of its spelling. Two surrogates in a row are one code
      point; a surrogate that stands alone is taken as it is. */
  function ReadChar(s: string): (r: Option<(CodePoint, nat)>)
    ensures r.Some? ==> 0 < r.value.1 <= |s|
  {
    if s == [] || s[0] == '"' || s[0] < ' ' then None
    else if s[0] != '\\' then Some((s[0] as nat, 1))
    else if |s| >= 2 && ShortEscape(s[1]).Some? then Some((ShortEscape(s[1]).value, 2))
    else
      var first := ReadUnit(s);
      if first.None? then None
      else
        var second := ReadUnit(s[6..]);
        if High(first.value) && second.Some? && Low(second.value)
        then Some((Joined(first.value, second.value), 12)) else Some((first.value, 6))
  }

  /** The rest of a string up to its closing quote, and what follows. */
  function ReadRest(s: string): (r: Option<(PyString, string)>)
    ensures r.Some? ==> |r.value.1| < |s|
    decreases |s|
  {
    if s == [] then None
    else if s[0] == '"' then Some(([], s[1..]))
    else
      var c := ReadChar(s);
      if c.None? then None
      else
        var rest := ReadRest(s[c.value.1..]);
        if rest.None? then None else Some(([c.value.0] + rest.value.0, rest.value.1))
  }

  function ReadString(s: string): (r: Option<(PyString, string)>)
    ensures r.Some? ==> |r.value.1| < |s|
  {
    if s != [] && s[0] == '"' then ReadRest(s[1..]) else None
  }

  /** What follows one expected character. */
  function Expect(c: char, s: string): (r: Option<string>)
    ensures r.Some? ==> |r.value| < |s|
  {
    if s != [] && s[0] == c then Some(s[1..]) else None
  }

  function ReadPair(s: string): (r: Option<(Pair, string)>)
    ensures r.Some? ==> |r.value.1| < |s|
  {
    var open := Expect('[', s);
    if open.None? then None else
    var first := ReadString(open.value);
    if first.None? then None else
    var comma := Expect(',', first.value.1);
    if comma.None? then None else
    var second := ReadString(comma.value);
    if second.None? then None else
    var close := Expect(']', second.value.1);
    if close.None? then None else Some(((first.value.0, second.value.0), close.value))
  }

  /** Pairs separated by commas up to the closing bracket that ends the text. */
  function ReadItems(s: string): Option<seq<Pair>>
    decreases |s|
  {
    var p := ReadPair(s);
    if p.None? then None
    else if p.value.1 == [']'] then Some([p.value.0])
    else
      var comma := Expect(',', p.value.1);
      if comma.None? then None
      else
        var rest := ReadItems(comma.value);
        if rest.None? then None else Some([p.value.0] + rest.value)
  }

  function Read(s: string): Option<seq<Pair>> {
    if s == ['[', ']'] then Some([])
    else
      var open := Expect('[', s);
      if open.None? then None else ReadItems(open.value)
  }

  // ---------------------------------------------------------------- reading back what was written

  /** The string with every high surrogate and low surrogate side by side joined into one code point. */
  function Merge(s: PyString): PyString {
    if s == [] then []
    else if |s| > 1 && High(s[0]) && Low(s[1]) then [Joined(s[0], s[1])] + Merge(s[2..])
    else [s[0]] + Merge(s[1..])
  }

  function Merged(pairs: seq<Pair>): (r: seq<Pair>)
    ensures |r| == |pairs|
    ensures forall i :: 0 <= i < |r| ==> r[i] == (Merge(pairs[i].0), Merge(pairs[i].1))
  {
    seq(|pairs|, i requires 0 <= i < |pairs| => (Merge(pairs[i].0), Merge(pairs[i].1)))
  }

  /** No high surrogate is followed by a low one. */
  ghost predicate Unpaired(s: PyString) {
    forall i :: 0 <= i < |s| - 1 ==> !(High(s[i]) && Low(s[i + 1]))
  }

  lemma {:induction false} MergeShortens(s: PyString)
    ensures |Merge(s)| <= |s|
    ensures |Merge(s)| == |s| <==> Unpaired(s)
    ensures Unpaired(s) ==> Merge(s) == s
  {
    if s != [] {
      if |s| > 1 && High(s[0]) && Low(s[1]) {
        MergeShortens(s[2..]);
      } else {
        MergeShortens(s[1..]);
        UnpairedTail(s);
        assert s == [s[0]] + s[1..];
      }
    }
  }

  lemma {:induction false} UnpairedTail(s: PyString)
    requires s != [] && !(|s| > 1 && High(s[0]) && Low(s[1]))
    ensures Unpaired(s) <==> Unpaired(s[1..])
  {
    if Unpaired(s[1..]) {
      forall i | 0 <= i < |s| - 1 ensures !(High(s[i]) && Low(s[i + 1])) {
        if i > 0 {
          assert s[1..][i - 1] == s[i] && s[1..][i] == s[i + 1];
        }
      }
    }
  }

  lemma {:induction false} HexBack(n: nat)
    requires n < 16
    ensures HexValue(HexDigit(n)) == Some(n)
  {
  }

  lemma {:induction false} Digits(n: nat)
    requires n < 0x10000
    ensures n / 0x1000 < 16
    ensures n / 0x1000 * 0x1000 + n / 0x100 % 16 * 0x100 + n / 0x10 % 16 * 0x10 + n % 16 == n
  {
    assert n / 0x10 / 16 == n / 0x100 && n / 0x100 / 16 == n / 0x1000;
  }

  lemma {:induction false} UnitBack(n: nat, tail: string)
    requires n < 0x10000
    ensures ReadUnit(Unit(n) + tail) == Some(n)
  {
    hide HexDigit, HexValue;
    Digits(n);
    HexBack(n / 0x1000);
    HexBack(n / 0x100 % 16);
    HexBack(n / 0x10 % 16);
    HexBack(n % 16);
    var s := Unit(n) + tail;
    assert s[0] == '\\' && s[1] == 'u' && s[2] == HexDigit(n / 0x1000) && s[3] == HexDigit(n / 0x100 % 16);
    assert s[4] == HexDigit(n / 0x10 % 16) && s[5] == HexDigit(n % 16);
  }

  /** Two units in a row that are a surrogate pair. */
  lemma {:induction false} SurrogatesBack(high: nat, low: nat, tail: string)
    requires High(high) && Low(low)
    ensures ReadChar(Unit(high) + Unit(low) + tail) == Some((Joined(high, low), 12))
  {
    hide ReadUnit;
    var s := Unit(high) + Unit(low) + tail;
    assert s == Unit(high) + (Unit(low) + tail);
    UnitBack(high, Unit(low) + tail);
    UnitBack(low, tail);
    assert s[6..] == Unit(low) + tail;
    assert s[0] == '\\' && s[1] == 'u';
  }

  /** A code point beyond the basic plane is written as the two surrogates that join to it. */
  lemma {:induction false} SplitJoins(n: CodePoint)
    requires 0x10000 <= n
    ensures var high, low := 0xd800 + (n - 0x10000) / 0x400, 0xdc00 + (n - 0x10000) % 0x400;
            High(high) && Low(low) && Joined(high, low) == n && EscapeChar(n) == Unit(high) + Unit(low)
  {
  }

  lemma {:induction false} JoinSplits(high: nat, low: nat)
    requires High(high) && Low(low)
    ensures EscapeChar(Joined(high, low)) == Unit(high) + Unit(low)
  {
    var n := Joined(high, low);
    assert (n - 0x10000) / 0x400 == high - 0xd800 && (n - 0x10000) % 0x400 == low - 0xdc00;
  }

  /** What follows does not start with a low surrogate. */
  ghost predicate NoLow(tail: string) {
    ReadUnit(tail).Some? ==> !Low(ReadUnit(tail).value)
  }

  lemma {:induction false} CharBack(n: CodePoint, tail: string)
    requires High(n) ==> NoLow(tail)
    ensures ReadChar(EscapeChar(n) + tail) == Some((n, |EscapeChar(n)|))
    ensures EscapeChar(n)[0] != '"'
  {
    hide ReadUnit, ReadChar, Unit, NoLow;
    if n >= 0x10000 {
      SplitJoins(n);
      SurrogatesBack(0xd800 + (n - 0x10000) / 0x400, 0xdc00 + (n - 0x10000) % 0x400, tail);
    } else if EscapeChar(n) == Unit(n) {
      OneUnitBack(n, tail);
    } else {
      PlainBack(n, tail);
    }
  }

  lemma {:induction false} OneUnitBack(n: CodePoint, tail: string)
    requires n < 0x10000 && (High(n) ==> NoLow(tail))
    ensures ReadChar(Unit(n) + tail) == Some((n, 6))
  {
    hide ReadUnit;
    UnitBack(n, tail);
    var s := Unit(n) + tail;
    assert s[0] == '\\' && s[1] == 'u' && s[6..] == tail;
  }

  lemma {:induction false} PlainBack(n: CodePoint, tail: string)
    requires n < 0x10000 && EscapeChar(n) != Unit(n)
    ensures ReadChar(EscapeChar(n) + tail) == Some((n, |EscapeChar(n)|)) && EscapeChar(n)[0] != '"'
  {
    hide ReadUnit, Unit;
    var s := EscapeChar(n) + tail;
    assert s[0] == EscapeChar(n)[0];
    if |EscapeChar(n)| == 2 {
      assert s[1] == EscapeChar(n)[1];
    }
  }

  /** Only a low surrogate is written as the unit of one. */
  lemma {:induction false} NotLow(n: CodePoint, tail: string)
    requires !Low(n)
    ensures NoLow(EscapeChar(n) + tail)
  {
    var s := EscapeChar(n) + tail;
    if n >= 0x10000 {
      hide ReadUnit, Unit;
      SplitJoins(n);
      var high, low := 0xd800 + (n - 0x10000) / 0x400, 0xdc00 + (n - 0x10000) % 0x400;
      assert s == Unit(high) + (Unit(low) + tail);
      UnitBack(high, Unit(low) + tail);
    } else if EscapeChar(n) == Unit(n) {
      hide ReadUnit, Unit;
      UnitBack(n, tail);
    } else {
      hide Unit;
      assert s[0] == EscapeChar(n)[0];
      if |EscapeChar(n)| == 2 {
        assert s[1] == EscapeChar(n)[1];
      }
    }
  }

  /** After a high surrogate that is not paired. */
  lemma {:induction false} RestNotLow(s: PyString, tail: string)
    requires s != [] ==> !Low(s[0])
    ensures NoLow(Escape(s) + ['"'] + tail)
  {
    hide EscapeChar;
    var text := Escape(s) + ['"'] + tail;
    if s == [] {
      assert text[0] == '"';
    } else {
      hide NoLow;
      assert text == EscapeChar(s[0]) + (Escape(s[1..]) + ['"'] + tail);
      NotLow(s[0], Escape(s[1..]) + ['"'] + tail);
    }
  }

  lemma {:induction false} RestBack(s: PyString, tail: string)
    ensures ReadRest(Escape(s) + ['"'] + tail) == Some((Merge(s), tail))
  {
    hide ReadChar, EscapeChar, NoLow;
    var text := Escape(s) + ['"'] + tail;
    if s == [] {
      assert text == ['"'] + tail;
    } else if |s| > 1 && High(s[0]) && Low(s[1]) {
      var rest := Escape(s[2..]) + ['"'] + tail;
      EscapePair(s);
      assert text == Unit(s[0]) + Unit(s[1]) + rest;
      SurrogatesBack(s[0], s[1], rest);
      assert text[12..] == rest && text[0] == '\\';
      RestBack(s[2..], tail);
    } else {
      var rest := Escape(s[1..]) + ['"'] + tail;
      assert text == EscapeChar(s[0]) + rest;
      if High(s[0]) {
        RestNotLow(s[1..], tail);
      }
      CharBack(s[0], rest);
      assert text[|EscapeChar(s[0])|..] == rest;
      RestBack(s[1..], tail);
    }
  }

  /** A surrogate pair is written as its two units. */
  lemma {:induction false} EscapePair(s: PyString)
    requires |s| > 1 && High(s[0]) && Low(s[1])
    ensures Escape(s) == Unit(s[0]) + Unit(s[1]) + Escape(s[2..])
  {
    assert s[1..][1..] == s[2..] && s[1..][0] == s[1];
    assert Escape(s[1..]) == EscapeChar(s[1]) + Escape(s[2..]);
  }

  lemma {:induction false} StringBack(s: PyString, tail: string)
    ensures ReadString(WriteString(s) + tail) == Some((Merge(s), tail))
  {
    hide ReadRest, Escape;
    RestBack(s, tail);
    assert (WriteString(s) + tail)[1..] == Escape(s) + ['"'] + tail;
  }

  lemma {:induction false} ExpectBack(c: char, tail: string)
    ensures Expect(c, [c] + tail) == Some(tail)
  {
    assert ([c] + tail)[1..] == tail;
  }

  lemma {:induction false} PairBack(p: Pair, tail: string)
    ensures ReadPair(WritePair(p) + tail) == Some(((Merge(p.0), Merge(p.1)), tail))
  {
    hide ReadString, WriteString, Expect, Merge;
    var closing := [']'] + tail;
    var second := WriteString(p.1) + closing;
    var comma := [','] + second;
    var first := WriteString(p.0) + comma;
    assert WritePair(p) + tail == ['['] + first;
    ExpectBack('[', first);
    StringBack(p.0, comma);
    ExpectBack(',', second);
    StringBack(p.1, closing);
    ExpectBack(']', tail);
  }

  lemma {:induction false} ItemsBack(pairs: seq<Pair>)
    requires pairs != []
    ensures ReadItems(WriteItems(pairs) + [']']) == Some(Merged(pairs))
  {
    hide ReadPair, WritePair, Expect, Merge;
    var text := WriteItems(pairs) + [']'];
    if |pairs| == 1 {
      PairBack(pairs[0], [']']);
      assert Merged(pairs) == [Merged(pairs)[0]];
    } else {
      var more := WriteItems(pairs[1..]) + [']'];
      assert text == WritePair(pairs[0]) + ([','] + more);
      PairBack(pairs[0], [','] + more);
      ExpectBack(',', more);
      ItemsBack(pairs[1..]);
      assert Merged(pairs) == [Merged(pairs)[0]] + Merged(pairs[1..]);
      assert ([','] + more)[0] == ',';
    }
  }

  /** The payload decodes back to the pairs it was made from, with every surrogate pair joined. */
  lemma {:induction false} ReadsBack(pairs: seq<Pair>)
    ensures Read(Write(pairs)) == Some(Merged(pairs))
  {
    hide ReadItems, Expect, Merge;
    if pairs != [] {
      var items := WriteItems(pairs) + [']'];
      assert Write(pairs) == ['['] + items;
      ExpectBack('[', items);
      ItemsBack(pairs);
      assert WriteItems(pairs)[0] == '[';
      assert Write(pairs)[1] == '[';
    } else {
      assert Merged(pairs) == [];
    }
  }

  ghost predicate AllUnpaired(pairs: seq<Pair>) {
    forall i :: 0 <= i < |pairs| ==> Unpaired(pairs[i].0) && Unpaired(pairs[i].1)
  }

  lemma {:induction false} MergedSameIff(pairs: seq<Pair>)
    ensures Merged(pairs) == pairs <==> AllUnpaired(pairs)
  {
    hide Merge, Unpaired;
    forall i | 0 <= i < |pairs| ensures Merged(pairs)[i] == pairs[i] <==> Unpaired(pairs[i].0) && Unpaired(pairs[i].1) {
      MergeShortens(pairs[i].0);
      MergeShortens(pairs[i].1);
    }
  }

  /** It decodes back to the very pairs exactly when no string holds a high surrogate followed by a low
      one; in particular for all strings of Unicode characters. */
  lemma {:induction false} RoundTripIff(pairs: seq<Pair>)
    ensures Read(Write(pairs)) == Some(pairs) <==> AllUnpaired(pairs)
  {
    hide Read, Write, Merged;
    ReadsBack(pairs);
    MergedSameIff(pairs);
  }

  lemma {:induction false} MergeWritesSame(s: PyString)
    ensures Escape(Merge(s)) == Escape(s)
  {
    hide EscapeChar;
    if s != [] {
      if |s| > 1 && High(s[0]) && Low(s[1]) {
        MergeWritesSame(s[2..]);
        JoinSplits(s[0], s[1]);
        EscapePair(s);
        EscapeHead(Joined(s[0], s[1]), Merge(s[2..]));
      } else {
        MergeWritesSame(s[1..]);
        EscapeHead(s[0], Merge(s[1..]));
      }
    }
  }

  lemma {:induction false} EscapeHead(n: CodePoint, s: PyString)
    ensures Escape([n] + s) == EscapeChar(n) + Escape(s)
  {
    assert ([n] + s)[1..] == s;
  }

  lemma {:induction false} MergedWritesSame(pairs: seq<Pair>)
    ensures WriteItems(Merged(pairs)) == WriteItems(pairs)
  {
    hide Merge, Escape;
    if pairs != [] {
      MergeWritesSame(pairs[0].0);
      MergeWritesSame(pairs[0].1);
      MergedWritesSame(pairs[1..]);
      assert Merged(pairs)[1..] == Merged(pairs[1..]);
    }
  }

  /** Two payloads are the same exactly when the pairs are, but for surrogate pairs joined. */
  lemma {:induction false} WriteInjective(a: seq<Pair>, b: seq<Pair>)
    ensures Write(a) == Write(b) <==> Merged(a) == Merged(b)
  {
    hide Read, WriteItems, Merged;
    ReadsBack(a);
    ReadsBack(b);
    MergedWritesSame(a);
    MergedWritesSame(b);
  }

  // ---------------------------------------------------------------- strings of characters

  /** The code points of a string of Unicode characters, none of which is a surrogate. */
  function Codes(s: string): (r: PyString)
    ensures |r| == |s| && forall i :: 0 <= i < |s| ==> r[i] == s[i] as nat
  {
    seq(|s|, i requires 0 <= i < |s| => s[i] as nat)
  }

  function Coded(pairs: seq<(string, string)>): (r: seq<Pair>)
    ensures |r| == |pairs| && forall i :: 0 <= i < |r| ==> r[i] == (Codes(pairs[i].0), Codes(pairs[i].1))
  {
    seq(|pairs|, i requires 0 <= i < |pairs| => (Codes(pairs[i].0), Codes(pairs[i].1)))
  }

  lemma {:induction false} CodesTell(a: string, b: string)
    ensures Unpaired(Codes(a)) && (Codes(a) == Codes(b) <==> a == b)
  {
    if Codes(a) == Codes(b) {
      forall i | 0 <= i < |a| ensures a[i] == b[i] {
        assert Codes(a)[i] == Codes(b)[i];
      }
    }
  }

  /** Different pairs of character strings never share a payload. */
  lemma {:induction false} CodedInjective(a: seq<(string, string)>, b: seq<(string, string)>)
    ensures Write(Coded(a)) == Write(Coded(b)) <==> a == b
  {
    hide Write, Merged, Codes, Unpaired;
    WriteInjective(Coded(a), Coded(b));
    forall i | 0 <= i < |a| ensures Unpaired(Coded(a)[i].0) && Unpaired(Coded(a)[i].1) {
      CodesTell(a[i].0, a[i].0);
      CodesTell(a[i].1, a[i].1);
    }
    forall i | 0 <= i < |b| ensures Unpaired(Coded(b)[i].0) && Unpaired(Coded(b)[i].1) {
      CodesTell(b[i].0, b[i].0);
      CodesTell(b[i].1, b[i].1);
    }
    MergedSameIff(Coded(a));
    MergedSameIff(Coded(b));
    if Coded(a) == Coded(b) {
      forall i | 0 <= i < |a| ensures a[i] == b[i] {
        assert Coded(a)[i] == Coded(b)[i];
        CodesTell(a[i].0, b[i].0);
        CodesTell(a[i].1, b[i].1);
      }
    }
  }

  // ---------------------------------------------------------------- ASCII

  /** Hexadecimal digits are written in lower case. */
  lemma {:induction false} HexTable(n: nat)
    requires n < 16
    ensures HexDigit(n) == "0123456789abcdef"[n]
  {
  }

  /** Every code point is written in the shortest way that printable ASCII allows. */
  lemma {:induction false} EscapeIsShortest(n: CodePoint, s: string)
    requires Printable(s) && ReadChar(s) == Some((n, |s|))
    ensures |EscapeChar(n)| <= |s|
  {
    hide HexDigit, HexValue;
  }

  /** The payload is printable ASCII, so encoding it as ASCII cannot fail. */
  ghost predicate Printable(s: string) {
    forall i :: 0 <= i < |s| ==> ' ' <= s[i] <= '~'
  }

  lemma {:induction false} EscapePrintable(s: PyString)
    ensures Printable(Escape(s))
  {
    if s != [] {
      EscapePrintable(s[1..]);
      assert Printable(EscapeChar(s[0]));
    }
  }

  lemma {:induction false} ItemsPrintable(pairs: seq<Pair>)
    ensures Printable(WriteItems(pairs))
  {
    hide Escape;
    if pairs != [] {
      EscapePrintable(pairs[0].0);
      EscapePrintable(pairs[0].1);
      ItemsPrintable(pairs[1..]);
    }
  }

  lemma {:induction false} PayloadPrintable(pairs: seq<Pair>)
    ensures Printable(Write(pairs))
  {
    hide WriteItems;
    ItemsPrintable(pairs);
  }
}
