/** The credentials of a DNS challenge plugin: sorted KEY=value lines in the base64 of
    section 4 of RFC 4648.  Every character of a string here is one byte. */
module PluginData {
  import opened Strings
  import opened Options
  import opened Sorting

  predicate IsBytes(s: string) { forall k | 0 <= k < |s| :: s[k] as int < 256 }

  type Bytes = s: string | IsBytes(s)

  // ---- base64 ----

  type Sextet = v: int | 0 <= v < 64

  function SextetChar(v: Sextet): char {
    if v < 26 then 'A' + v as char
    else if v < 52 then 'a' + (v - 26) as char
    else if v < 62 then '0' + (v - 52) as char
    else if v == 62 then '+' else '/'
  }

  function CharSextet(c: char): (r: Option<Sextet>)
    ensures r.Some? ==> SextetChar(r.value) == c
  {
    if 'A' <= c <= 'Z' then Some((c - 'A') as int)
    else if 'a' <= c <= 'z' then Some((c - 'a') as int + 26)
    else if '0' <= c <= '9' then Some((c - '0') as int + 52)
    else if c == '+' then Some(62)
    else if c == '/' then Some(63)
    else None
  }

  lemma SextetInverse(v: Sextet)
    ensures CharSextet(SextetChar(v)) == Some(v)
    ensures SextetChar(v) != '='
  {
  }

  /** The four characters of up to three bytes; a missing byte counts as zero bits and a
      character without bits of its own is padding. */
  function EncodeGroup(a: int, b: Option<int>, c: Option<int>): (g: string)
    requires 0 <= a < 256
    requires b.Some? ==> 0 <= b.value < 256
    requires c.Some? ==> b.Some? && 0 <= c.value < 256
    ensures |g| == 4
  {
    var b0 := if b.Some? then b.value else 0;
    var c0 := if c.Some? then c.value else 0;
    [SextetChar(a / 4), SextetChar(a % 4 * 16 + b0 / 16),
     if b.Some? then SextetChar(b0 % 16 * 4 + c0 / 64) else '=',
     if c.Some? then SextetChar(c0 % 64) else '=']
  }

  function EncodeBase64(s: Bytes): (t: string)
    ensures t == "" <==> s == ""
  {
    if s == "" then ""
    else if |s| == 1 then EncodeGroup(s[0] as int, None, None)
    else if |s| == 2 then EncodeGroup(s[0] as int, Some(s[1] as int), None)
    else EncodeGroup(s[0] as int, Some(s[1] as int), Some(s[2] as int)) + EncodeBase64(s[3..])
  }

  function ByteChar(v: int): char
    requires 0 <= v < 256
  {
    v as char
  }

  /** The bytes of one group of four, if it is one; padding only where `last` allows it. */
  function DecodeGroup(g: string, last: bool): (r: Option<Bytes>)
    requires |g| == 4
  {
    match (CharSextet(g[0]), CharSextet(g[1]))
    case (Some(p), Some(q)) =>
      var a := ByteChar(p * 4 + q / 16);
      if last && g[2] == '=' && g[3] == '=' then Some([a])
      else
        (match CharSextet(g[2])
         case None => None
         case Some(r) =>
           var b := ByteChar(q % 16 * 16 + r / 4);
           if last && g[3] == '=' then Some([a, b])
           else
             match CharSextet(g[3])
             case None => None
             case Some(s) => Some([a, b, ByteChar(r % 4 * 64 + s)]))
    case _ => None
  }

  function DecodeBase64(t: string): (r: Option<Bytes>) {
    if t == "" then Some("")
    else if |t| < 4 then None
    else
      match DecodeGroup(t[..4], |t| == 4)
      case None => None
      case Some(head) =>
        match DecodeBase64(t[4..])
        case None => None
        case Some(tail) => Some(head + tail)
  }

  /** The parts of a number put together from two. */
  lemma Parts4(hi: nat, lo: nat)
    requires lo < 4
    ensures (hi * 4 + lo) / 4 == hi && (hi * 4 + lo) % 4 == lo
  {
  }

  lemma Parts16(hi: nat, lo: nat)
    requires lo < 16
    ensures (hi * 16 + lo) / 16 == hi && (hi * 16 + lo) % 16 == lo
  {
  }

  /** The second sextet gives back the last bits of the first byte and the first of the second. */
  lemma SecondSextet(a: nat, b: nat)
    requires a < 256 && b < 256
    ensures var q := a % 4 * 16 + b / 16; q < 64 && a / 4 * 4 + q / 16 == a && q % 16 == b / 16
  {
    Parts16(a % 4, b / 16);
  }

  /** So does the third with the second byte and the third. */
  lemma ThirdSextet(b: nat, c: nat)
    requires b < 256 && c < 256
    ensures var r := b % 16 * 4 + c / 64; r < 64 && b / 16 * 16 + r / 4 == b && r % 4 * 64 + c % 64 == c
  {
    Parts4(b % 16, c / 64);
  }

  lemma DecodeFullGroup(a: int, b: int, c: int, last: bool)
    requires 0 <= a < 256 && 0 <= b < 256 && 0 <= c < 256
    ensures DecodeGroup(EncodeGroup(a, Some(b), Some(c)), last) == Some([a as char, b as char, c as char])
  {
    hide SextetChar, CharSextet;
    var p: Sextet, q: Sextet, r: Sextet, s: Sextet := a / 4, a % 4 * 16 + b / 16, b % 16 * 4 + c / 64, c % 64;
    SecondSextet(a, b);
    ThirdSextet(b, c);
    SextetInverse(p);
    SextetInverse(q);
    SextetInverse(r);
    SextetInverse(s);
    DecodeSextets(p, q, r, s, last);
  }

  lemma DecodeSextets(p: Sextet, q: Sextet, r: Sextet, s: Sextet, last: bool)
    ensures DecodeGroup([SextetChar(p), SextetChar(q), SextetChar(r), SextetChar(s)], last) ==
            Some([ByteChar(p * 4 + q / 16), ByteChar(q % 16 * 16 + r / 4), ByteChar(r % 4 * 64 + s)])
  {
    hide SextetChar, CharSextet, ByteChar;
    SextetInverse(p);
    SextetInverse(q);
    SextetInverse(r);
    SextetInverse(s);
  }

  lemma DecodePaddedGroup(a: int, b: Option<int>)
    requires 0 <= a < 256 && (b.Some? ==> 0 <= b.value < 256)
    ensures DecodeGroup(EncodeGroup(a, b, None), true) ==
            Some(if b.Some? then [a as char, b.value as char] else [a as char])
  {
    hide SextetChar, CharSextet;
    var b0 := if b.Some? then b.value else 0;
    SecondSextet(a, b0);
    ThirdSextet(b0, 0);
    SextetInverse(a / 4);
    SextetInverse(a % 4 * 16 + b0 / 16);
    SextetInverse(b0 % 16 * 4);
  }

  lemma DecodeStep(g: string, rest: string, head: Bytes, tail: Bytes)
    requires |g| == 4 && DecodeGroup(g, rest == "") == Some(head)
    requires DecodeBase64(rest) == Some(tail)
    ensures DecodeBase64(g + rest) == Some(head + tail)
  {
    assert (g + rest)[..4] == g && (g + rest)[4..] == rest;
  }

  /** One group alone decodes to its own bytes. */
  lemma DecodeAlone(g: string, head: Bytes)
    requires |g| == 4 && DecodeGroup(g, true) == Some(head)
    ensures DecodeBase64(g) == Some(head)
  {
    DecodeStep(g, "", head, "");
    assert g + "" == g && head + "" == head;
  }

  lemma Base64One(s: Bytes)
    requires |s| == 1
    ensures DecodeBase64(EncodeBase64(s)) == Some(s)
  {
    DecodePaddedGroup(s[0] as int, None);
    assert s == [s[0]];
    DecodeAlone(EncodeGroup(s[0] as int, None, None), s);
  }

  lemma Base64Two(s: Bytes)
    requires |s| == 2
    ensures DecodeBase64(EncodeBase64(s)) == Some(s)
  {
    DecodePaddedGroup(s[0] as int, Some(s[1] as int));
    assert s == [s[0], s[1]];
    DecodeAlone(EncodeGroup(s[0] as int, Some(s[1] as int), None), s);
  }

  lemma EncodeLong(s: Bytes)
    requires |s| > 2
    ensures EncodeBase64(s) == EncodeGroup(s[0] as int, Some(s[1] as int), Some(s[2] as int)) + EncodeBase64(s[3..])
  {
  }

  /** A full group in front of an encoding decodes to its three bytes in front of the rest. */
  lemma DecodeLong(s: Bytes, rest: string)
    requires |s| > 2 && DecodeBase64(rest) == Some(s[3..])
    ensures DecodeBase64(EncodeGroup(s[0] as int, Some(s[1] as int), Some(s[2] as int)) + rest) == Some(s)
  {
    DecodeFullGroup(s[0] as int, s[1] as int, s[2] as int, rest == "");
    DecodeStep(EncodeGroup(s[0] as int, Some(s[1] as int), Some(s[2] as int)), rest, [s[0], s[1], s[2]], s[3..]);
    assert s == [s[0], s[1], s[2]] + s[3..];
  }

  /** Decoding gives the encoded bytes back. */
  lemma {:induction false} Base64RoundTrip(s: Bytes)
    ensures DecodeBase64(EncodeBase64(s)) == Some(s)
    decreases |s|
  {
    if |s| == 0 {
    } else if |s| == 1 {
      Base64One(s);
    } else if |s| == 2 {
      Base64Two(s);
    } else {
      Base64RoundTrip(s[3..]);
      DecodeLong(s, EncodeBase64(s[3..]));
      EncodeLong(s);
    }
  }

  // ---- the encoding itself ----

  /** The character stands for the value, in the alphabet of the standard. */
  predicate Stands(c: char, v: int) {
    || ('A' <= c <= 'Z' && v == c as int - 'A' as int)
    || ('a' <= c <= 'z' && v == c as int - 'a' as int + 26)
    || ('0' <= c <= '9' && v == c as int - '0' as int + 52)
    || (c == '+' && v == 62) || (c == '/' && v == 63)
  }

  lemma SextetStands(v: Sextet)
    ensures Stands(SextetChar(v), v)
  {
  }

  /** Four characters for up to three bytes, which make one number of 24 bits: its digits to base 64, with
      padding for what belongs to missing bytes only. */
  ghost predicate GroupReads(g: string, a: int, b: int, c: int, bytes: int) {
    && |g| == 4 && (g[2] == '=' <==> bytes < 2) && (g[3] == '=' <==> bytes < 3)
    && exists p, q, r, s ::
         AreDigits(g, p, q, r, s, bytes) && ((p * 64 + q) * 64 + r) * 64 + s == (a * 256 + b) * 256 + c
  }

  predicate AreDigits(g: string, p: int, q: int, r: int, s: int, bytes: int)
    requires |g| == 4
  {
    && Stands(g[0], p) && Stands(g[1], q)
    && (if bytes < 2 then r == 0 else Stands(g[2], r)) && (if bytes < 3 then s == 0 else Stands(g[3], s))
  }

  lemma GroupNumber(a: int, b: Option<int>, c: Option<int>)
    requires 0 <= a < 256 && (b.Some? ==> 0 <= b.value < 256) && (c.Some? ==> b.Some? && 0 <= c.value < 256)
    ensures GroupReads(EncodeGroup(a, b, c), a, if b.Some? then b.value else 0, if c.Some? then c.value else 0,
                       if c.Some? then 3 else if b.Some? then 2 else 1)
  {
    hide SextetChar, Stands;
    var b0, c0 := if b.Some? then b.value else 0, if c.Some? then c.value else 0;
    var p: Sextet, q: Sextet, r: Sextet, s: Sextet := a / 4, a % 4 * 16 + b0 / 16, b0 % 16 * 4 + c0 / 64, c0 % 64;
    SextetStands(p);
    SextetStands(q);
    SextetStands(r);
    SextetStands(s);
    SextetInverse(r);
    SextetInverse(s);
    SextetNumber(a, b0, c0);
    assert AreDigits(EncodeGroup(a, b, c), p, q, r, s, if c.Some? then 3 else if b.Some? then 2 else 1);
  }

  lemma SextetNumber(a: nat, b: nat, c: nat)
    requires a < 256 && b < 256 && c < 256
    ensures ((a / 4 * 64 + (a % 4 * 16 + b / 16)) * 64 + (b % 16 * 4 + c / 64)) * 64 + c % 64 == (a * 256 + b) * 256 + c
  {
  }

  /** The byte at `i`, or zero behind the end. */
  function ByteAt(s: Bytes, i: nat): int { if i < |s| then s[i] as int else 0 }

  lemma EncodeNone()
    ensures EncodeBase64("") == ""
  {
  }

  lemma ShortGroup(s: Bytes)
    requires 0 < |s| <= 2
    ensures |EncodeBase64(s)| == 4
    ensures GroupReads(EncodeBase64(s)[0..4], s[0] as int, ByteAt(s, 1), 0, |s|)
  {
    hide GroupReads, EncodeGroup;
    GroupNumber(s[0] as int, if |s| == 2 then Some(s[1] as int) else None, None);
    assert EncodeBase64(s)[0..4] == EncodeBase64(s);
  }

  /** Every group of four characters reads as the three bytes it stands for. */
  lemma {:induction false} Base64Groups(s: Bytes, k: nat)
    requires 3 * k < |s|
    ensures |EncodeBase64(s)| == (|s| + 2) / 3 * 4 && 4 * k + 4 <= |EncodeBase64(s)|
    ensures GroupReads(EncodeBase64(s)[4 * k..4 * k + 4], s[3 * k] as int, ByteAt(s, 3 * k + 1), ByteAt(s, 3 * k + 2),
                       if 3 * k + 2 < |s| then 3 else if 3 * k + 1 < |s| then 2 else 1)
    decreases |s|
  {
    hide GroupReads, EncodeGroup, EncodeBase64;
    EncodeNone();
    if |s| <= 2 {
      ShortGroup(s);
    } else {
      var g, rest := EncodeGroup(s[0] as int, Some(s[1] as int), Some(s[2] as int)), EncodeBase64(s[3..]);
      EncodeLong(s);
      if k == 0 {
        GroupNumber(s[0] as int, Some(s[1] as int), Some(s[2] as int));
        if |s| > 3 {
          Base64Groups(s[3..], 0);
        }
        FirstGroup(g, rest);
      } else {
        Base64Groups(s[3..], k - 1);
        LaterGroup(g, rest, k);
        LaterBytes(s, k);
      }
    }
  }

  lemma FirstGroup(g: string, rest: string)
    requires |g| == 4
    ensures (g + rest)[0..4] == g
  {
  }

  lemma LaterGroup(g: string, rest: string, k: nat)
    requires |g| == 4 && 0 < k && 4 * k <= |rest|
    ensures (g + rest)[4 * k..4 * k + 4] == rest[4 * (k - 1)..4 * (k - 1) + 4]
  {
  }

  lemma LaterBytes(s: Bytes, k: nat)
    requires 0 < k && 3 * k < |s|
    ensures s[3..][3 * (k - 1)] == s[3 * k]
    ensures ByteAt(s[3..], 3 * (k - 1) + 1) == ByteAt(s, 3 * k + 1) && ByteAt(s[3..], 3 * (k - 1) + 2) == ByteAt(s, 3 * k + 2)
  {
  }

  // ---- the credential lines ----

  type Values = map<string, string>

  predicate AllBytes(values: Values) {
    forall key | key in values :: IsBytes(key) && IsBytes(values[key])
  }

  /** The entries that are sent: an empty value is left out. */
  function NonEmpty(values: Values): Values {
    map key | key in values && values[key] != "" :: values[key]
  }

  function Lines(values: Values, keys: seq<string>): (lines: seq<string>)
    requires forall k | 0 <= k < |keys| :: keys[k] in values
    ensures |lines| == |keys|
    ensures forall k | 0 <= k < |keys| :: lines[k] == Keyed(keys[k], values[keys[k]])
  {
    if keys == [] then []
    else Lines(values, keys[..|keys| - 1]) + [Keyed(keys[|keys| - 1], values[keys[|keys| - 1]])]
  }

  lemma {:induction false} JoinBytes(parts: seq<string>, sep: char)
    requires sep as int < 256 && forall k | 0 <= k < |parts| :: IsBytes(parts[k])
    ensures IsBytes(Join(parts, sep))
  {
    if |parts| > 1 {
      JoinBytes(parts[1..], sep);
    }
  }

  ghost function SortedKeys(values: Values): (keys: seq<string>)
    ensures StrictlySorted(keys)
    ensures forall key :: key in keys <==> key in NonEmpty(values)
    ensures forall k | 0 <= k < |keys| :: keys[k] in NonEmpty(values)
  {
    var keys := Listing(NonEmpty(values).Keys);
    assert forall key :: key in keys <==> key in Elements(keys);
    keys
  }

  ghost function SortedLines(values: Values): seq<string> { Lines(values, SortedKeys(values)) }

  lemma SortedLinesBytes(values: Values)
    requires AllBytes(values)
    ensures IsBytes(Join(SortedLines(values), '\n'))
  {
    JoinBytes(SortedLines(values), '\n');
  }

  /** The lines in key order, joined: the text that is encoded. */
  ghost function Text(values: Values): Bytes
    requires AllBytes(values)
  {
    SortedLinesBytes(values);
    Join(SortedLines(values), '\n')
  }

  /** What is encoded: a line "key=value" for every key with a value, in ascending order of the keys. */
  lemma TextLines(values: Values) returns (keys: seq<string>, lines: seq<string>)
    requires AllBytes(values)
    ensures Text(values) == Join(lines, '\n') && |lines| == |keys| && Ascending(keys)
    ensures forall key :: key in keys <==> key in values && values[key] != ""
    ensures forall i | 0 <= i < |keys| :: keys[i] in values && lines[i] == keys[i] + "=" + values[keys[i]]
  {
    keys := SortedKeys(values);
    lines := SortedLines(values);
    AscendingIs(keys);
  }

  /** encodePluginData.  The map is visited in an arbitrary order, and the result does not
      depend on it. */
  method EncodePluginData(values: Values) returns (data: string)
    requires AllBytes(values)
    ensures data == EncodeBase64(Text(values))
  {
    var keys := CollectKeys(values);
    var lines := BuildLines(values, keys);
    SortedLinesBytes(values);
    data := EncodeBase64(Join(lines, '\n'));
  }

  method BuildLines(values: Values, keys: seq<string>) returns (lines: seq<string>)
    requires forall k | 0 <= k < |keys| :: keys[k] in values
    ensures lines == Lines(values, keys)
  {
    lines := [];
    for i := 0 to |keys|
      invariant lines == Lines(values, keys[..i])
    {
      assert keys[..i + 1][..i] == keys[..i];
      lines := lines + [Keyed(keys[i], values[keys[i]])];
    }
    assert keys[..|keys|] == keys;
  }

  method CollectKeys(values: Values) returns (sorted: seq<string>)
    ensures sorted == SortedKeys(values)
  {
    var keys: seq<string> := [];
    var todo := values.Keys;
    while todo != {}
      invariant todo <= values.Keys
      invariant forall key :: key in keys <==> key in NonEmpty(values) && key !in todo
      invariant Distinct(keys)
      decreases todo
    {
      var key :| key in todo;
      todo := todo - {key};
      if values[key] != "" {
        keys := keys + [key];
      }
    }
    sorted := SortStrings(keys);
    SortDistinct(keys);
    SortedListingUnique(sorted, SortedKeys(values));
  }

  // ---- reading the lines back ----

  function ReadLines(lines: seq<string>): map<string, string> {
    if lines == [] then map[]
    else
      var rest := ReadLines(lines[..|lines| - 1]);
      match CutAt(lines[|lines| - 1], '=')
      case Missing => rest
      case Found(key, value) => rest[key := value]
  }

  function ReadText(text: string): map<string, string> { ReadLines(Split(text, '\n')) }

  function DecodePluginData(data: string): Option<map<string, string>> {
    match DecodeBase64(data)
    case None => None
    case Some(text) => Some(ReadText(text))
  }

  /** Credentials a line format can carry. */
  predicate LineSafe(values: Values) {
    forall key | key in values :: '=' !in key && '\n' !in key && '\n' !in values[key]
  }

  lemma ReadNext(lines: seq<string>, key: string, value: string)
    requires '=' !in key
    ensures ReadLines(lines + [Keyed(key, value)]) == ReadLines(lines)[key := value]
  {
    CutKeyed(key, value);
    assert (lines + [Keyed(key, value)])[..|lines|] == lines;
  }

  function Entries(values: Values, keys: seq<string>): Values
    requires forall k | 0 <= k < |keys| :: keys[k] in values
  {
    map key | key in keys :: values[key]
  }

  lemma EntriesNext(values: Values, keys: seq<string>)
    requires keys != [] && forall k | 0 <= k < |keys| :: keys[k] in values
    ensures var init, last := keys[..|keys| - 1], keys[|keys| - 1];
            Entries(values, keys) == Entries(values, init)[last := values[last]]
  {
    assert keys == keys[..|keys| - 1] + [keys[|keys| - 1]];
  }

  lemma {:induction false} ReadBack(values: Values, keys: seq<string>)
    requires forall k | 0 <= k < |keys| :: keys[k] in values && '=' !in keys[k]
    ensures ReadLines(Lines(values, keys)) == Entries(values, keys)
  {
    if keys != [] {
      hide Entries, ReadLines;
      var init, last := keys[..|keys| - 1], keys[|keys| - 1];
      ReadBack(values, init);
      ReadNext(Lines(values, init), last, values[last]);
      EntriesNext(values, keys);
    }
  }

  lemma {:induction false} ReadLinesSafe(lines: seq<string>)
    requires forall k | 0 <= k < |lines| :: '\n' !in lines[k]
    ensures forall key | key in ReadLines(lines) :: '=' !in key && '\n' !in key && '\n' !in ReadLines(lines)[key]
  {
    if lines != [] {
      ReadLinesSafe(lines[..|lines| - 1]);
      var line := lines[|lines| - 1];
      var cut := CutAt(line, '=');
      if cut.Found? {
        assert line[..|cut.before|] == cut.before;
      }
    }
  }

  lemma SafeLines(values: Values, keys: seq<string>)
    requires LineSafe(NonEmpty(values)) && forall k | 0 <= k < |keys| :: keys[k] in NonEmpty(values)
    ensures forall k | 0 <= k < |keys| :: '\n' !in Lines(values, keys)[k] && '=' !in keys[k]
  {
  }

  lemma ReadJoined(lines: seq<string>)
    requires forall k | 0 <= k < |lines| :: '\n' !in lines[k]
    ensures ReadText(Join(lines, '\n')) == ReadLines(lines)
  {
    if lines == [] {
      assert Split("", '\n') == [""] && [""][..0] == [];
    } else {
      SplitJoin(lines, '\n');
    }
  }

  lemma ReadSorted(values: Values)
    requires LineSafe(NonEmpty(values))
    ensures ReadText(Join(SortedLines(values), '\n')) == NonEmpty(values)
  {
    hide ReadText, ReadLines, Lines, Join;
    SafeLines(values, SortedKeys(values));
    ReadJoined(SortedLines(values));
    ReadBack(values, SortedKeys(values));
  }

  /** Decoding what was encoded gives the non-empty entries back, if and only if each of them
      is one a line can carry. */
  lemma PluginDataRoundTrip(values: Values)
    requires AllBytes(values)
    ensures DecodePluginData(EncodeBase64(Text(values))) == Some(NonEmpty(values)) <==> LineSafe(NonEmpty(values))
  {
    Base64RoundTrip(Text(values));
    ReadLinesSafe(Split(Text(values), '\n'));
    if LineSafe(NonEmpty(values)) {
      ReadSorted(values);
    }
  }

  /** The encoding is empty exactly when every value is. */
  lemma PluginDataEmpty(values: Values)
    requires AllBytes(values)
    ensures EncodeBase64(Text(values)) == "" <==> forall key | key in values :: values[key] == ""
  {
    var keys, lines := SortedKeys(values), SortedLines(values);
    if keys != [] {
      assert |lines[0]| > 0;
      assert keys[0] in NonEmpty(values);
    } else {
      assert forall key | key in values :: values[key] != "" ==> key in keys;
    }
  }
}
