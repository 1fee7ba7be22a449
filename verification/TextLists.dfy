/** Lists kept in one string: API keys separated by newlines, model names separated
    by commas.  `strings.Split`, `strings.Join` and `strings.Trim` for a separator of
    one character. */
module TextLists {

  function Split(s: string, sep: char): (r: seq<string>)
    ensures |r| >= 1
  {
    if s == [] then [[]]
    else
      var rest := Split(s[1..], sep);
      if s[0] == sep then [[]] + rest
      else [[s[0]] + rest[0]] + rest[1..]
  }

  function Join(parts: seq<string>, sep: char): string {
    if parts == [] then []
    else if |parts| == 1 then parts[0]
    else parts[0] + [sep] + Join(parts[1..], sep)
  }

  function TrimLeft(s: string, sep: char): string {
    if s != [] && s[0] == sep then TrimLeft(s[1..], sep) else s
  }

  function TrimRight(s: string, sep: char): string {
    if s != [] && s[|s| - 1] == sep then TrimRight(s[..|s| - 1], sep) else s
  }

  /** `Split(Trim(s, sep), sep)`, and no items in the empty string. */
  function Items(s: string, sep: char): seq<string> {
    if s == [] then [] else Split(TrimRight(TrimLeft(s, sep), sep), sep)
  }

  /** An item that can be stored: not empty and without the separator. */
  predicate Storable(item: string, sep: char) {
    item != [] && sep !in item
  }

  ghost predicate AllStorable(items: seq<string>, sep: char) {
    forall i :: 0 <= i < |items| ==> Storable(items[i], sep)
  }

  lemma {:induction false} SplitFirst(item: string, rest: string, sep: char)
    requires sep !in item
    ensures Split(item, sep) == [item]
    ensures Split(item + [sep] + rest, sep) == [item] + Split(rest, sep)
  {
    var s := item + [sep] + rest;
    if item == [] {
      assert s[1..] == rest;
    } else {
      SplitFirst(item[1..], rest, sep);
      assert s[1..] == item[1..] + [sep] + rest;
      assert [item[0]] + item[1..] == item;
    }
  }

  lemma {:induction false} SplitJoin(items: seq<string>, sep: char)
    requires AllStorable(items, sep) && items != []
    ensures Split(Join(items, sep), sep) == items
  {
    if |items| == 1 {
      SplitFirst(items[0], [], sep);
      assert items == [items[0]];
    } else {
      var first, rest := items[0], items[1..];
      var joined := Join(rest, sep);
      calc {
        Split(Join(items, sep), sep);
      ==
        Split(first + [sep] + joined, sep);
      == { SplitFirst(first, joined, sep); }
        [first] + Split(joined, sep);
      == { SplitJoin(rest, sep); }
        [first] + rest;
      ==
        items;
      }
    }
  }

  lemma {:induction false} JoinEnds(items: seq<string>, sep: char)
    requires AllStorable(items, sep) && items != []
    ensures var s := Join(items, sep); s != [] && s[0] != sep && s[|s| - 1] != sep
  {
    if |items| > 1 {
      JoinEnds(items[1..], sep);
      assert Join(items, sep)[0] == items[0][0];
    } else {
      var s := items[0];
      assert s[0] in s && s[|s| - 1] in s;
    }
    assert items[0][0] in items[0];
  }

  /** Storable items come back from the stored text, in order. */
  lemma ItemsRoundTrip(items: seq<string>, sep: char)
    requires AllStorable(items, sep)
    ensures Items(Join(items, sep), sep) == items
    ensures Join(items, sep) == [] <==> items == []
  {
    if items != [] {
      JoinEnds(items, sep);
      SplitJoin(items, sep);
    }
  }

  /** No item of a stored list contains the separator. */
  lemma {:induction false} SplitWithoutSeparator(s: string, sep: char)
    ensures forall i :: 0 <= i < |Split(s, sep)| ==> sep !in Split(s, sep)[i]
  {
    if s != [] {
      SplitWithoutSeparator(s[1..], sep);
    }
  }

  lemma ItemsWithoutSeparator(s: string, sep: char)
    ensures forall i :: 0 <= i < |Items(s, sep)| ==> sep !in Items(s, sep)[i]
  {
    if s != [] {
      SplitWithoutSeparator(TrimRight(TrimLeft(s, sep), sep), sep);
    }
  }

  lemma {:induction false} TrimLeftKeepsEnd(s: string, sep: char)
    ensures TrimLeft(s + [sep], sep) == if TrimLeft(s, sep) == [] then [] else TrimLeft(s, sep) + [sep]
  {
    if s != [] {
      TrimLeftKeepsEnd(s[1..], sep);
      assert (s + [sep])[1..] == s[1..] + [sep];
    } else {
      assert ([sep] + [])[1..] == [];
      assert s + [sep] == [sep] && [sep][1..] == [];
    }
  }

  /** A separator more at either end of a stored list makes no difference. */
  lemma ItemsIgnoreEnds(s: string, sep: char)
    requires s != []
    ensures Items([sep] + s, sep) == Items(s, sep)
    ensures Items(s + [sep], sep) == Items(s, sep)
  {
    assert ([sep] + s)[1..] == s;
    TrimLeftKeepsEnd(s, sep);
    var t := TrimLeft(s, sep);
    assert (t + [sep])[..|t|] == t;
  }
}
