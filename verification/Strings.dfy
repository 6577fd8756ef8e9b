/** The string primitives the SDK and the mock server build their codecs from:
    splitting and joining on one separator, cutting at the first separator, and
    trimming white space.  A string is a sequence of Unicode code points. */
module Strings {

  /** The position of the first `c` in `s`, or `|s|` when there is none. */
  function IndexOf(s: string, c: char): (i: nat)
    ensures i <= |s|
    ensures c !in s[..i]
    ensures i < |s| ==> s[i] == c
    ensures i == |s| <==> c !in s
  {
    if s == "" then 0 else if s[0] == c then 0 else 1 + IndexOf(s[1..], c)
  }

  lemma {:induction false} IndexOfIs(s: string, c: char, i: nat)
    requires i < |s| && s[i] == c && c !in s[..i]
    ensures IndexOf(s, c) == i
  {
    if i > 0 {
      assert s[0] in s[..i];
      assert s[1..][..i - 1] == s[..i][1..];
      IndexOfIs(s[1..], c, i - 1);
    }
  }

  /** The pieces of `s` between separators; at least one, the empty string included. */
  function Split(s: string, sep: char): (parts: seq<string>)
    ensures |parts| >= 1
    ensures forall k | 0 <= k < |parts| :: sep !in parts[k]
    decreases |s|
  {
    var i := IndexOf(s, sep);
    if i == |s| then [s] else [s[..i]] + Split(s[i + 1..], sep)
  }

  function Join(parts: seq<string>, sep: char): string {
    if |parts| == 0 then ""
    else if |parts| == 1 then parts[0]
    else parts[0] + [sep] + Join(parts[1..], sep)
  }

  lemma JoinCons(part: string, rest: seq<string>, sep: char)
    requires rest != []
    ensures Join([part] + rest, sep) == part + [sep] + Join(rest, sep)
  {
    assert ([part] + rest)[1..] == rest;
  }

  lemma SplitFirst(s: string, sep: char)
    ensures var i := IndexOf(s, sep);
            Split(s, sep) == if i == |s| then [s] else [s[..i]] + Split(s[i + 1..], sep)
  {
  }

  lemma JoinOne(part: string, sep: char)
    ensures Join([part], sep) == part
  {
  }

  /** Joining what was split gives the text back. */
  lemma {:induction false} JoinSplit(s: string, sep: char)
    ensures Join(Split(s, sep), sep) == s
    decreases |s|
  {
    hide Split, Join;
    var i := IndexOf(s, sep);
    SplitFirst(s, sep);
    if i == |s| {
      JoinOne(s, sep);
    } else {
      JoinSplit(s[i + 1..], sep);
      JoinCons(s[..i], Split(s[i + 1..], sep), sep);
      assert s == s[..i] + [sep] + s[i + 1..];
    }
  }

  /** Splitting what was joined gives the pieces back, when there is at least one
      and none holds the separator. */
  lemma {:induction false} SplitJoin(parts: seq<string>, sep: char)
    requires |parts| >= 1
    requires forall k | 0 <= k < |parts| :: sep !in parts[k]
    ensures Split(Join(parts, sep), sep) == parts
  {
    var s := Join(parts, sep);
    if |parts| > 1 {
      SplitJoin(parts[1..], sep);
      var p := parts[0];
      assert s[|p|] == sep && s[..|p|] == p && s[|p| + 1..] == Join(parts[1..], sep);
      IndexOfIs(s, sep, |p|);
    }
  }

  /** Any character but the separator comes from one of the pieces. */
  lemma {:induction false} JoinChars(parts: seq<string>, sep: char, c: char)
    requires c != sep
    requires forall k | 0 <= k < |parts| :: c !in parts[k]
    ensures c !in Join(parts, sep)
  {
    if |parts| > 1 {
      JoinChars(parts[1..], sep, c);
    }
  }

  lemma {:induction false} SplitChars(s: string, sep: char, c: char)
    requires c !in s
    ensures forall k | 0 <= k < |Split(s, sep)| :: c !in Split(s, sep)[k]
    decreases |s|
  {
    var i := IndexOf(s, sep);
    if i < |s| {
      SplitChars(s[i + 1..], sep, c);
    }
  }

  /** What lies before and after the first separator, and whether there was one. */
  datatype Cut = Found(before: string, after: string) | Missing

  function CutAt(s: string, sep: char): (r: Cut)
    ensures r.Missing? <==> sep !in s
    ensures r.Found? ==> s == r.before + [sep] + r.after && sep !in r.before
    ensures r.Found? ==> forall c | c in r.after :: c in s
  {
    var i := IndexOf(s, sep);
    if i == |s| then Missing else Found(s[..i], s[i + 1..])
  }

  function Keyed(key: string, value: string): string { key + ['='] + value }

  lemma CutKeyed(key: string, value: string)
    requires '=' !in key
    ensures CutAt(Keyed(key, value), '=') == Found(key, value)
  {
    var s := Keyed(key, value);
    assert s[..|key|] == key && s[|key| + 1..] == value;
    IndexOfIs(s, '=', |key|);
  }

  predicate HasPrefix(s: string, prefix: string) {
    |prefix| <= |s| && s[..|prefix|] == prefix
  }

  /** White space as Unicode defines it. */
  predicate IsSpace(c: char) {
    || c == '\t' || c == '\n' || c == '\U{0B}' || c == '\U{0C}' || c == '\r' || c == ' '
    || c == '\U{85}' || c == '\U{A0}' || c == '\U{1680}' || '\U{2000}' <= c <= '\U{200A}'
    || c == '\U{2028}' || c == '\U{2029}' || c == '\U{202F}' || c == '\U{205F}' || c == '\U{3000}'
  }

  /** Those are the code points with the White_Space property. */
  lemma SpaceCodes(c: char)
    ensures IsSpace(c) <==>
            || 9 <= c as int <= 13 || c as int in {32, 0x85, 0xA0, 0x1680, 0x2028, 0x2029, 0x202F, 0x205F, 0x3000}
            || 0x2000 <= c as int <= 0x200A
  {
  }

  predicate TrimmedRight(s: string) { s == "" || !IsSpace(s[|s| - 1]) }

  predicate TrimmedLeft(s: string) { s == "" || !IsSpace(s[0]) }

  predicate Trimmed(s: string) { TrimmedLeft(s) && TrimmedRight(s) }

  function TrimRight(s: string): (t: string)
    ensures TrimmedRight(t) && t <= s
    ensures TrimmedRight(s) <==> t == s
    ensures forall c | c in t :: c in s
  {
    if s != "" && IsSpace(s[|s| - 1]) then TrimRight(s[..|s| - 1]) else s
  }

  function TrimLeft(s: string): (t: string)
    ensures TrimmedLeft(t)
    ensures TrimmedLeft(s) <==> t == s
    ensures TrimmedRight(s) ==> TrimmedRight(t)
    ensures forall c | c in t :: c in s
  {
    if s != "" && IsSpace(s[0]) then TrimLeft(s[1..]) else s
  }

  function Trim(s: string): (t: string)
    ensures Trimmed(t)
    ensures Trimmed(s) <==> t == s
    ensures forall c | c in t :: c in s
  {
    TrimRight(TrimLeft(s))
  }

  predicate AllSpace(s: string) { forall k | 0 <= k < |s| :: IsSpace(s[k]) }

  lemma {:induction false} TrimRightExactly(t: string, b: string)
    requires TrimmedRight(t) && AllSpace(b)
    ensures TrimRight(t + b) == t
  {
    if b == [] {
      assert t + b == t;
    } else {
      assert (t + b)[..|t + b| - 1] == t + b[..|b| - 1];
      TrimRightExactly(t, b[..|b| - 1]);
    }
  }

  lemma {:induction false} TrimLeftExactly(a: string, t: string)
    requires TrimmedLeft(t) && AllSpace(a)
    ensures TrimLeft(a + t) == t
  {
    if a == [] {
      assert a + t == t;
    } else {
      assert (a + t)[1..] == a[1..] + t;
      TrimLeftExactly(a[1..], t);
    }
  }

  /** Trimming takes away the white space at both ends, and nothing else. */
  lemma TrimExactly(a: string, t: string, b: string)
    requires AllSpace(a) && AllSpace(b) && Trimmed(t)
    ensures Trim(a + t + b) == t
  {
    hide IsSpace;
    if t == "" {
      TrimLeftExactly(a + b, "");
      assert a + t + b == a + b + "";
    } else {
      assert (t + b)[0] == t[0];
      TrimLeftExactly(a, t + b);
      assert a + t + b == a + (t + b);
      TrimRightExactly(t, b);
    }
  }

  /** Every text is what trimming leaves of it, between white space. */
  lemma {:induction false} TrimSplits(s: string) returns (a: string, b: string)
    ensures s == a + Trim(s) + b && AllSpace(a) && AllSpace(b)
    decreases |s|
  {
    hide IsSpace, Trim;
    a, b := "", "";
    if s != "" && IsSpace(s[0]) {
      TrimOneLeft(s);
      a, b := TrimSplits(s[1..]);
      Regroup([s[0]], a, Trim(s), b);
      assert s == [s[0]] + s[1..];
      a := [s[0]] + a;
    } else if s != "" && IsSpace(s[|s| - 1]) {
      TrimOneRight(s);
      a, b := TrimSplits(s[..|s| - 1]);
      Regroup(a, Trim(s), b, [s[|s| - 1]]);
      assert s == s[..|s| - 1] + [s[|s| - 1]];
      b := b + [s[|s| - 1]];
    }
  }

  lemma Regroup(a: string, b: string, c: string, d: string)
    ensures a + (b + c + d) == a + b + c + d == a + b + (c + d)
  {
  }

  lemma TrimOneLeft(s: string)
    requires s != "" && IsSpace(s[0])
    ensures Trim(s) == Trim(s[1..])
  {
    hide IsSpace;
  }

  lemma TrimOneRight(s: string)
    requires s != "" && TrimmedLeft(s) && IsSpace(s[|s| - 1])
    ensures Trim(s) == Trim(s[..|s| - 1])
  {
    hide IsSpace;
  }

  /** Trimming a keyed text only shortens the value, on the right. */
  lemma {:induction false} TrimKeyed(key: string, value: string)
    requires key != "" && TrimmedLeft(key)
    ensures Trim(Keyed(key, value)) == Keyed(key, TrimRight(value))
    decreases |value|
  {
    var s := Keyed(key, value);
    assert s[0] == key[0];
    if value != "" && IsSpace(value[|value| - 1]) {
      assert s[..|s| - 1] == Keyed(key, value[..|value| - 1]);
      TrimKeyed(key, value[..|value| - 1]);
    } else {
      assert TrimmedRight(s);
    }
  }

  /** The trimmed items, in order, without those that trim to nothing. */
  function Clean(items: seq<string>): (r: seq<string>)
    ensures forall k | 0 <= k < |r| :: r[k] != "" && Trimmed(r[k])
  {
    if items == [] then []
    else
      var item := Trim(items[|items| - 1]);
      Clean(items[..|items| - 1]) + if item == "" then [] else [item]
  }

  lemma CleanNone()
    ensures Clean([]) == []
  {
  }

  lemma CleanNext(items: seq<string>, i: nat)
    requires i < |items|
    ensures Clean(items[..i + 1]) ==
            if Trim(items[i]) == "" then Clean(items[..i]) else Clean(items[..i]) + [Trim(items[i])]
  {
    hide Trim;
    assert items[..i + 1][..i] == items[..i];
  }

  lemma {:induction false} CleanFixed(items: seq<string>)
    requires forall k | 0 <= k < |items| :: items[k] != "" && Trimmed(items[k])
    ensures Clean(items) == items
  {
    if items != [] {
      CleanFixed(items[..|items| - 1]);
    }
  }

  lemma {:induction false} CleanChars(items: seq<string>, c: char)
    requires forall k | 0 <= k < |items| :: c !in items[k]
    ensures forall k | 0 <= k < |Clean(items)| :: c !in Clean(items)[k]
  {
    if items != [] {
      CleanChars(items[..|items| - 1], c);
    }
  }

  /** The items of a list, trimmed, as a set. */
  function TrimmedItems(items: seq<string>): set<string> {
    set k | 0 <= k < |items| :: Trim(items[k])
  }

  lemma NextTrimmed(items: seq<string>, i: nat)
    requires i < |items|
    ensures TrimmedItems(items[..i + 1]) == TrimmedItems(items[..i]) + {Trim(items[i])}
  {
    forall item | item in TrimmedItems(items[..i]) ensures item in TrimmedItems(items[..i + 1]) {
      var k :| 0 <= k < i && Trim(items[..i][k]) == item;
      assert items[..i + 1][k] == items[..i][k];
    }
    assert items[..i + 1][i] == items[i];
    forall item | item in TrimmedItems(items[..i + 1]) && item != Trim(items[i])
      ensures item in TrimmedItems(items[..i])
    {
      var k :| 0 <= k < i + 1 && Trim(items[..i + 1][k]) == item;
      assert items[..i][k] == items[..i + 1][k];
    }
  }
}
