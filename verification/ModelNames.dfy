/** The ordered-set algebra on model name lists of
    controller/channel_upstream_update.go. */
module ModelNames {

  /** `unicode.IsSpace`. */
  predicate IsSpace(c: char) {
    var n := c as int;
    || 0x09 <= n <= 0x0d || n == 0x20 || n == 0x85 || n == 0xa0 || n == 0x1680
    || 0x2000 <= n <= 0x200a || n == 0x2028 || n == 0x2029 || n == 0x202f || n == 0x205f || n == 0x3000
  }

  function TrimStart(s: string): string {
    if s != [] && IsSpace(s[0]) then TrimStart(s[1..]) else s
  }

  function TrimEnd(s: string): string {
    if s != [] && IsSpace(s[|s| - 1]) then TrimEnd(s[..|s| - 1]) else s
  }

  /** `strings.TrimSpace`. */
  function TrimSpace(s: string): string {
    TrimEnd(TrimStart(s))
  }

  lemma {:induction false} TrimStartResult(s: string)
    ensures var r := TrimStart(s); (r == [] || !IsSpace(r[0])) && |r| <= |s| && r == s[|s| - |r|..]
  {
    if s != [] && IsSpace(s[0]) {
      TrimStartResult(s[1..]);
    }
  }

  lemma {:induction false} TrimEndResult(s: string)
    ensures var r := TrimEnd(s); (r == [] || !IsSpace(r[|r| - 1])) && |r| <= |s| && r == s[..|r|]
  {
    if s != [] && IsSpace(s[|s| - 1]) {
      TrimEndResult(s[..|s| - 1]);
    }
  }

  /** No space at either end, and something in between. */
  predicate Trimmed(s: string) {
    s != "" && !IsSpace(s[0]) && !IsSpace(s[|s| - 1])
  }

  lemma TrimResult(s: string)
    ensures TrimSpace(s) == "" || Trimmed(TrimSpace(s))
    ensures Trimmed(s) ==> TrimSpace(s) == s
    ensures forall c :: c in TrimSpace(s) ==> c in s
  {
    TrimStartResult(s);
    TrimEndResult(TrimStart(s));
  }

  ghost predicate Distinct(names: seq<string>) {
    forall i, j :: 0 <= i < j < |names| ==> names[i] != names[j]
  }

  ghost predicate AllTrimmed(names: seq<string>) {
    forall i :: 0 <= i < |names| ==> Trimmed(names[i])
  }

  /** What every list is after normalizing: trimmed names, none empty, none twice. */
  ghost predicate Clean(names: seq<string>) {
    Distinct(names) && AllTrimmed(names)
  }

  lemma AppendClean(names: seq<string>, name: string)
    requires Clean(names) && Trimmed(name) && name !in names
    ensures Clean(names + [name])
  {
  }

  lemma LastOfClean(names: seq<string>)
    requires Clean(names) && names != []
    ensures Clean(names[..|names| - 1]) && Trimmed(names[|names| - 1])
    ensures names[|names| - 1] !in names[..|names| - 1]
    ensures names == names[..|names| - 1] + [names[|names| - 1]]
  {
  }

  function Normalize(names: seq<string>): seq<string> {
    if names == [] then []
    else
      var front, name := Normalize(names[..|names| - 1]), TrimSpace(names[|names| - 1]);
      if name == "" || name in front then front else front + [name]
  }

  lemma {:induction false} NormalizeIsClean(names: seq<string>)
    ensures Clean(Normalize(names))
  {
    if names != [] {
      var n := |names| - 1;
      NormalizeIsClean(names[..n]);
      TrimResult(names[n]);
      var front, name := Normalize(names[..n]), TrimSpace(names[n]);
      if name != "" && name !in front {
        AppendClean(front, name);
      }
    }
  }

  lemma {:induction false} NormalizeClean(names: seq<string>)
    requires Clean(names)
    ensures Normalize(names) == names
  {
    if names != [] {
      LastOfClean(names);
      NormalizeClean(names[..|names| - 1]);
      TrimResult(names[|names| - 1]);
    }
  }

  lemma NormalizeTwice(names: seq<string>)
    ensures Normalize(Normalize(names)) == Normalize(names)
  {
    NormalizeIsClean(names);
    NormalizeClean(Normalize(names));
  }

  ghost predicate Mentions(names: seq<string>, m: string) {
    exists i :: 0 <= i < |names| && TrimSpace(names[i]) == m
  }

  lemma MentionsLast(names: seq<string>, m: string)
    requires names != []
    ensures Mentions(names, m) <==> Mentions(names[..|names| - 1], m) || TrimSpace(names[|names| - 1]) == m
  {
    var n := |names| - 1;
    assert forall i :: 0 <= i < n ==> names[..n][i] == names[i];
    if Mentions(names[..n], m) {
      var i :| 0 <= i < n && TrimSpace(names[..n][i]) == m;
      assert TrimSpace(names[i]) == m;
    }
  }

  /** Normalizing keeps every non-blank name, trimmed, and invents none. */
  lemma {:induction false} NormalizeMembers(names: seq<string>, m: string)
    ensures m in Normalize(names) <==> m != "" && Mentions(names, m)
  {
    if names != [] {
      NormalizeMembers(names[..|names| - 1], m);
      MentionsLast(names, m);
    }
  }

  function Filter(names: seq<string>, keep: string -> bool): (r: seq<string>)
    ensures forall m :: m in r <==> m in names && keep(m)
  {
    if names == [] then []
    else
      var front, last := Filter(names[..|names| - 1], keep), names[|names| - 1];
      assert names == names[..|names| - 1] + [last];
      if keep(last) then front + [last] else front
  }

  lemma {:induction false} FilterClean(names: seq<string>, keep: string -> bool)
    requires Clean(names)
    ensures Clean(Filter(names, keep))
  {
    if names != [] {
      LastOfClean(names);
      var front, last := names[..|names| - 1], names[|names| - 1];
      FilterClean(front, keep);
      if keep(last) {
        AppendClean(Filter(front, keep), last);
      }
    }
  }

  lemma {:induction false} FilterNone(names: seq<string>, keep: string -> bool)
    requires forall m :: m in names ==> !keep(m)
    ensures Filter(names, keep) == []
  {
    if names != [] {
      assert names[|names| - 1] in names;
      FilterNone(names[..|names| - 1], keep);
    }
  }

  lemma ConcatClean(a: seq<string>, b: seq<string>)
    requires Clean(a) && Clean(b) && forall m :: m in b ==> m !in a
    ensures Clean(a + b)
  {
    forall i, j | 0 <= i < j < |a + b| ensures (a + b)[i] != (a + b)[j] {
      if i < |a| <= j {
        assert (a + b)[j] in b;
      }
    }
  }

  lemma FilterStep(names: seq<string>, keep: string -> bool, i: nat)
    requires i < |names|
    ensures Filter(names[..i + 1], keep) == Filter(names[..i], keep) + if keep(names[i]) then [names[i]] else []
  {
    assert names[..i + 1][..i] == names[..i];
  }

  function In(names: seq<string>): string -> bool {
    m => m in names
  }

  function NotIn(names: seq<string>): string -> bool {
    m => m !in names
  }

  function Merge(base: seq<string>, appended: seq<string>): seq<string> {
    Normalize(base) + Filter(Normalize(appended), NotIn(Normalize(base)))
  }

  function Subtract(base: seq<string>, removed: seq<string>): seq<string> {
    Filter(Normalize(base), NotIn(Normalize(removed)))
  }

  function Intersect(base: seq<string>, allowed: seq<string>): seq<string> {
    Filter(Normalize(base), In(Normalize(allowed)))
  }

  /** Add wins when a model is selected for both. */
  function ApplySelected(origin: seq<string>, add: seq<string>, remove: seq<string>): seq<string> {
    var normalizedAdd := Normalize(add);
    var normalizedRemove := Subtract(Normalize(remove), normalizedAdd);
    Subtract(Merge(origin, normalizedAdd), normalizedRemove)
  }

  lemma MergeClean(base: seq<string>, appended: seq<string>)
    ensures Clean(Merge(base, appended))
    ensures forall m :: m in Merge(base, appended) <==> m in Normalize(base) || m in Normalize(appended)
  {
    NormalizeIsClean(base);
    NormalizeIsClean(appended);
    var extra := Filter(Normalize(appended), NotIn(Normalize(base)));
    FilterClean(Normalize(appended), NotIn(Normalize(base)));
    ConcatClean(Normalize(base), extra);
  }

  lemma SubtractClean(base: seq<string>, removed: seq<string>)
    ensures Clean(Subtract(base, removed))
    ensures forall m :: m in Subtract(base, removed) <==> m in Normalize(base) && m !in Normalize(removed)
  {
    NormalizeIsClean(base);
    FilterClean(Normalize(base), NotIn(Normalize(removed)));
  }

  lemma IntersectClean(base: seq<string>, allowed: seq<string>)
    ensures Clean(Intersect(base, allowed))
    ensures forall m :: m in Intersect(base, allowed) <==> m in Normalize(base) && m in Normalize(allowed)
  {
    NormalizeIsClean(base);
    FilterClean(Normalize(base), In(Normalize(allowed)));
  }

  /** The selection as a set: what was there or is added, less what is only removed. */
  lemma ApplySelectedExact(origin: seq<string>, add: seq<string>, remove: seq<string>)
    ensures Clean(ApplySelected(origin, add, remove))
    ensures forall m :: m in ApplySelected(origin, add, remove) <==>
              m in Normalize(add) || (m in Normalize(origin) && m !in Normalize(remove))
  {
    var normalizedAdd := Normalize(add);
    var normalizedRemove := Subtract(Normalize(remove), normalizedAdd);
    NormalizeTwice(add);
    NormalizeTwice(remove);
    SubtractClean(Normalize(remove), normalizedAdd);
    NormalizeClean(normalizedRemove);
    MergeClean(origin, normalizedAdd);
    NormalizeClean(Merge(origin, normalizedAdd));
    SubtractClean(Merge(origin, normalizedAdd), normalizedRemove);
  }

  /** The merge loop. */
  method MergeModelNames(base: seq<string>, appended: seq<string>) returns (merged: seq<string>)
    ensures merged == Merge(base, appended)
  {
    merged := Normalize(base);
    var seen := set m | m in merged;
    var extra := Normalize(appended);
    NormalizeIsClean(appended);
    for i := 0 to |extra|
      invariant merged == Normalize(base) + Filter(extra[..i], NotIn(Normalize(base)))
      invariant seen == set m | m in merged
    {
      var model := extra[i];
      FilterStep(extra, NotIn(Normalize(base)), i);
      assert model !in extra[..i];
      if model in seen {
        continue;
      }
      seen := seen + {model};
      merged := merged + [model];
    }
    assert extra[..|extra|] == extra;
  }
}
