/** Splitting, cutting and trimming texts whose parts may hold the separator, or white space at an
    end. */
module Pieces {
  import opened Filtering
  import opened Strings

  // ---- splitting what was joined from pieces that hold the separator ----

  /** The pieces of all the parts. */
  function SplitAll(parts: seq<string>, sep: char): seq<string> {
    if parts == [] then [] else Split(parts[0], sep) + SplitAll(parts[1..], sep)
  }

  lemma SplitBefore(part: string, rest: string, sep: char)
    requires sep !in part
    ensures Split(part + [sep] + rest, sep) == [part] + Split(rest, sep)
  {
    hide Split;
    var s := part + [sep] + rest;
    assert s[|part|] == sep && s[..|part|] == part && s[|part| + 1..] == rest;
    IndexOfIs(s, sep, |part|);
    SplitFirst(s, sep);
  }

  lemma {:induction false} SplitTwo(a: string, b: string, sep: char)
    ensures Split(a + [sep] + b, sep) == Split(a, sep) + Split(b, sep)
    decreases |a|
  {
    hide Split;
    var i := IndexOf(a, sep);
    if i == |a| {
      SplitFirst(a, sep);
      SplitBefore(a, b, sep);
    } else {
      var p, q := a[..i], a[i + 1..];
      SplitTwo(q, b, sep);
      SplitBefore(p, q, sep);
      SplitBefore(p, q + [sep] + b, sep);
      TextRegrouped(a, p, q, b, sep);
      assert [p] + (Split(q, sep) + Split(b, sep)) == [p] + Split(q, sep) + Split(b, sep);
    }
  }

  lemma TextRegrouped(a: string, p: string, q: string, b: string, sep: char)
    requires |p| < |a| && p == a[..|p|] && a[|p|] == sep && q == a[|p| + 1..]
    ensures a == p + [sep] + q && a + [sep] + b == p + [sep] + (q + [sep] + b)
  {
  }

  /** Splitting what was joined gives the pieces of all the parts. */
  lemma {:induction false} SplitJoinAll(parts: seq<string>, sep: char)
    requires parts != []
    ensures Split(Join(parts, sep), sep) == SplitAll(parts, sep)
  {
    hide Split, Join;
    if |parts| == 1 {
      JoinOne(parts[0], sep);
      assert parts == [parts[0]] && SplitAll(parts[1..], sep) == [];
    } else {
      SplitJoinAll(parts[1..], sep);
      JoinCons(parts[0], parts[1..], sep);
      SplitTwo(parts[0], Join(parts[1..], sep), sep);
      assert parts == [parts[0]] + parts[1..];
    }
  }

  /** A character that is no separator goes to the first piece, or to the last. */
  lemma SplitFront(c: char, s: string, sep: char)
    requires c != sep
    ensures Split([c] + s, sep) == [[c] + Split(s, sep)[0]] + Split(s, sep)[1..]
  {
    hide Split;
    var t, i := [c] + s, IndexOf(s, sep);
    SplitFirst(t, sep);
    SplitFirst(s, sep);
    assert t[1..] == s && t[..i + 1] == [c] + s[..i];
    if i < |s| {
      assert t[i + 1] == sep;
      IndexOfIs(t, sep, i + 1);
      assert t[i + 2..] == s[i + 1..];
    }
  }

  lemma {:induction false} SplitBack(s: string, c: char, sep: char)
    requires c != sep
    ensures var ps := Split(s, sep);
            Split(s + [c], sep) == ps[..|ps| - 1] + [ps[|ps| - 1] + [c]]
    decreases |s|
  {
    hide Split;
    var t, i := s + [c], IndexOf(s, sep);
    SplitFirst(t, sep);
    SplitFirst(s, sep);
    if i < |s| {
      assert t[i] == sep && t[..i] == s[..i];
      IndexOfIs(t, sep, i);
      SplitBack(s[i + 1..], c, sep);
      assert t[i + 1..] == s[i + 1..] + [c];
    }
  }

  /** The pieces of a keyed text: the key stays with the first piece of the value. */
  lemma {:induction false} SplitKeyed(key: string, value: string, sep: char)
    requires sep !in key && sep != '='
    ensures Split(Keyed(key, value), sep) == [Keyed(key, Split(value, sep)[0])] + Split(value, sep)[1..]
    decreases |key|
  {
    hide Split;
    if key == "" {
      SplitFront('=', value, sep);
      assert Keyed(key, value) == ['='] + value;
      assert Keyed(key, Split(value, sep)[0]) == ['='] + Split(value, sep)[0];
    } else {
      SplitKeyed(key[1..], value, sep);
      SplitFront(key[0], Keyed(key[1..], value), sep);
      assert Keyed(key, value) == [key[0]] + Keyed(key[1..], value);
      assert Keyed(key, Split(value, sep)[0]) == [key[0]] + Keyed(key[1..], Split(value, sep)[0]);
    }
  }

  // ---- trimming in parts ----

  /** A space at the end makes no difference. */
  lemma {:induction false} TrimDropLast(s: string)
    requires s != "" && IsSpace(s[|s| - 1])
    ensures Trim(s) == Trim(s[..|s| - 1])
    decreases |s|
  {
    if IsSpace(s[0]) && |s| > 1 {
      TrimDropLast(s[1..]);
      assert s[1..][..|s| - 2] == s[..|s| - 1][1..];
    }
  }

  lemma TrimDropFirst(s: string)
    requires s != "" && IsSpace(s[0])
    ensures Trim(s) == Trim(s[1..])
  {
  }

  lemma CleanMore(items: seq<string>, item: string)
    ensures Clean(items + [item]) == Clean(items) + (if Trim(item) == "" then [] else [Trim(item)])
  {
    hide Trim;
    assert (items + [item])[..|items|] == items;
  }

  lemma {:induction false} CleanAppend(a: seq<string>, b: seq<string>)
    ensures Clean(a + b) == Clean(a) + Clean(b)
  {
    if b == [] {
      CleanNone();
      assert a + b == a;
    } else {
      hide Trim, Clean;
      var init, last := b[..|b| - 1], b[|b| - 1];
      CleanAppend(a, init);
      CleanSplit(a, init, last);
      assert b == init + [last];
    }
  }

  lemma CleanSplit(a: seq<string>, init: seq<string>, last: string)
    requires Clean(a + init) == Clean(a) + Clean(init)
    ensures Clean(a + (init + [last])) == Clean(a) + Clean(init + [last])
  {
    hide Trim, Clean;
    CleanMore(a + init, last);
    CleanMore(init, last);
    Regrouped(a, init, [last]);
    Regrouped(Clean(a), Clean(init), if Trim(last) == "" then [] else [Trim(last)]);
  }

  lemma CleanSame(item: string, item': string)
    requires Trim(item) == Trim(item')
    ensures Clean([item]) == Clean([item'])
  {
    hide Trim;
    assert [item][..0] == [item'][..0];
  }

  /** A space at either end of a list makes no difference to its items. */
  lemma CleanDropFirst(s: string, sep: char)
    requires s != "" && IsSpace(s[0]) && s[0] != sep
    ensures Clean(Split(s, sep)) == Clean(Split(s[1..], sep))
  {
    hide Split, Clean;
    var ps := Split(s[1..], sep);
    SplitFront(s[0], s[1..], sep);
    assert s == [s[0]] + s[1..] && ps == [ps[0]] + ps[1..];
    TrimDropFirst([s[0]] + ps[0]);
    assert ([s[0]] + ps[0])[1..] == ps[0];
    CleanSame([s[0]] + ps[0], ps[0]);
    CleanAppend([[s[0]] + ps[0]], ps[1..]);
    CleanAppend([ps[0]], ps[1..]);
  }

  lemma CleanDropLast(s: string, sep: char)
    requires s != "" && IsSpace(s[|s| - 1]) && s[|s| - 1] != sep
    ensures Clean(Split(s, sep)) == Clean(Split(s[..|s| - 1], sep))
  {
    hide Split, Clean;
    var c, ps := s[|s| - 1], Split(s[..|s| - 1], sep);
    var n := |ps| - 1;
    SplitBack(s[..|s| - 1], c, sep);
    assert s == s[..|s| - 1] + [c] && ps == ps[..n] + [ps[n]];
    TrimDropLast(ps[n] + [c]);
    assert (ps[n] + [c])[..|ps[n]|] == ps[n];
    CleanSame(ps[n] + [c], ps[n]);
    CleanAppend(ps[..n], [ps[n] + [c]]);
    CleanAppend(ps[..n], [ps[n]]);
  }

  lemma {:induction false} CleanTrimLeft(s: string, sep: char)
    requires !IsSpace(sep)
    ensures Clean(Split(TrimLeft(s), sep)) == Clean(Split(s, sep))
  {
    hide Split, Clean;
    if s != "" && IsSpace(s[0]) {
      CleanTrimLeft(s[1..], sep);
      CleanDropFirst(s, sep);
    }
  }

  lemma {:induction false} CleanTrimRight(s: string, sep: char)
    requires !IsSpace(sep)
    ensures Clean(Split(TrimRight(s), sep)) == Clean(Split(s, sep))
  {
    hide Split, Clean;
    if s != "" && IsSpace(s[|s| - 1]) {
      CleanTrimRight(s[..|s| - 1], sep);
      CleanDropLast(s, sep);
    }
  }

  /** So trimming a list does not change its items. */
  lemma CleanTrimList(s: string, sep: char)
    requires !IsSpace(sep)
    ensures Clean(Split(Trim(s), sep)) == Clean(Split(s, sep))
  {
    hide Split, Clean, TrimLeft, TrimRight;
    CleanTrimLeft(s, sep);
    CleanTrimRight(TrimLeft(s), sep);
  }

  /** Cutting a trimmed text gives the same sides, trimmed. */
  ghost predicate SameCut(c: Cut, c': Cut) {
    (c.Found? <==> c'.Found?) && (c.Found? ==> Trim(c.before) == Trim(c'.before) && Trim(c.after) == Trim(c'.after))
  }

  lemma CutIs(s: string, sep: char, before: string, after: string)
    requires s == before + [sep] + after && sep !in before
    ensures CutAt(s, sep) == Found(before, after)
  {
    assert s[|before|] == sep && s[..|before|] == before && s[|before| + 1..] == after;
    IndexOfIs(s, sep, |before|);
  }

  lemma CutDropFirst(s: string, sep: char)
    requires s != "" && IsSpace(s[0]) && s[0] != sep
    ensures SameCut(CutAt(s, sep), CutAt(s[1..], sep))
  {
    hide Trim;
    var cut := CutAt(s, sep);
    if cut.Found? {
      var before := cut.before;
      assert before != "" && before[0] == s[0] by { assert s[|before|] == sep; }
      assert s[1..] == before[1..] + [sep] + cut.after;
      CutIs(s[1..], sep, before[1..], cut.after);
      TrimDropFirst(before);
    } else {
      assert sep !in s[1..];
    }
  }

  lemma CutDropLast(s: string, sep: char)
    requires s != "" && IsSpace(s[|s| - 1]) && s[|s| - 1] != sep
    ensures SameCut(CutAt(s, sep), CutAt(s[..|s| - 1], sep))
  {
    hide Trim;
    var cut := CutAt(s, sep);
    if cut.Found? {
      var after := cut.after;
      assert after != "" && after[|after| - 1] == s[|s| - 1] by { assert s[|cut.before|] == sep; }
      assert s[..|s| - 1] == cut.before + [sep] + after[..|after| - 1];
      CutIs(s[..|s| - 1], sep, cut.before, after[..|after| - 1]);
      TrimDropLast(after);
    } else {
      assert sep !in s[..|s| - 1];
    }
  }

  lemma {:induction false} CutTrimLeft(s: string, sep: char)
    requires !IsSpace(sep)
    ensures SameCut(CutAt(s, sep), CutAt(TrimLeft(s), sep))
  {
    hide Trim, CutAt;
    if s != "" && IsSpace(s[0]) {
      CutTrimLeft(s[1..], sep);
      CutDropFirst(s, sep);
    }
  }

  lemma {:induction false} CutTrimRight(s: string, sep: char)
    requires !IsSpace(sep)
    ensures SameCut(CutAt(s, sep), CutAt(TrimRight(s), sep))
  {
    hide Trim, CutAt;
    if s != "" && IsSpace(s[|s| - 1]) {
      CutTrimRight(s[..|s| - 1], sep);
      CutDropLast(s, sep);
    }
  }

  lemma CutTrim(s: string, sep: char)
    requires !IsSpace(sep)
    ensures SameCut(CutAt(s, sep), CutAt(Trim(s), sep))
  {
    hide CutAt, TrimLeft, TrimRight;
    CutTrimLeft(s, sep);
    CutTrimRight(TrimLeft(s), sep);
  }

  /** A text starts with a key and '=' exactly when it is cut there. */
  lemma KeyedPrefix(part: string, key: string)
    requires '=' !in key
    ensures HasPrefix(part, Keyed(key, "")) <==> CutAt(part, '=').Found? && CutAt(part, '=').before == key
    ensures HasPrefix(part, Keyed(key, "")) ==> part[|key| + 1..] == CutAt(part, '=').after
  {
    if HasPrefix(part, Keyed(key, "")) {
      var value := part[|key| + 1..];
      assert part == Keyed(key, value);
      CutKeyed(key, value);
    }
    var cut := CutAt(part, '=');
    if cut.Found? && cut.before == key {
      assert part[..|key| + 1] == Keyed(key, "");
    }
  }
}
