/** Slash-separated names. */
module Paths {
  import opened Wrappers

  predicate IsName(s: string) {
    s != "" && '/' !in s
  }

  /** `path += "/" + name` over the names in order. */
  function Print(names: seq<string>): string {
    if names == [] then "" else "/" + names[0] + Print(names[1..])
  }

  lemma {:induction false} PrintLast(names: seq<string>)
    requires names != []
    ensures Print(names) == Print(Front(names)) + "/" + Last(names)
    decreases names
  {
    if |names| == 1 {
      assert names == [Last(names)] && Print(names[1..]) == "";
      assert Print(names) == "/" + Last(names) + "";
    } else {
      PrintLast(names[1..]);
      assert Front(names)[1..] == Front(names[1..]);
      assert Print(names) == "/" + names[0] + (Print(Front(names[1..])) + "/" + Last(names));
    }
  }

  lemma {:induction false} PrintLonger(names: seq<string>)
    requires forall n :: n in names ==> IsName(n)
    ensures |Print(names)| >= 2 * |names|
    decreases names
  {
    if names != [] {
      assert names[0] in names;
      PrintLonger(names[1..]);
    }
  }

  /** The first `/` at or after position `i`, if any. */
  function Find(s: string, i: nat): (r: Option<nat>)
    ensures r.Some? ==> i <= r.value < |s| && s[r.value] == '/'
    ensures r.Some? ==> forall j :: i <= j < r.value ==> s[j] != '/'
    ensures r == None ==> forall j :: i <= j < |s| ==> s[j] != '/'
    decreases |s| - i
  {
    if i >= |s| then None else if s[i] == '/' then Some(i) else Find(s, i + 1)
  }

  lemma FindIs(s: string, i: nat, k: nat)
    requires i <= k < |s| && s[k] == '/' && forall j :: i <= j < k ==> s[j] != '/'
    ensures Find(s, i) == Some(k)
  {
  }

  lemma FindNone(s: string, i: nat)
    requires forall j :: i <= j < |s| ==> s[j] != '/'
    ensures Find(s, i) == None
  {
  }

  lemma PrintFirst(name: string, rest: seq<string>)
    ensures Print([name] + rest) == "/" + name + Print(rest)
  {
    assert ([name] + rest)[1..] == rest;
  }

  /** The first name of a path printed at position `at`, and what follows it. */
  lemma NameAt(s: string, at: nat, name: string, rest: seq<string>)
    requires at <= |s| && s[at..] == Print([name] + rest)
    requires IsName(name) && forall n :: n in rest ==> IsName(n)
    ensures var e := at + 1 + |name|;
            && at < e <= |s| && s[at] == '/' && s[at + 1..e] == name && s[e..] == Print(rest)
            && Find(s, at + 1) == (if rest == [] then None else Some(e))
            && (if rest == [] then e == |s| else e < |s| - 1)
  {
    var e := at + 1 + |name|;
    PrintFirst(name, rest);
    PrintLonger(rest);
    var text := "/" + name + Print(rest);
    assert |text| == |s| - at && forall j :: 0 <= j < |text| ==> s[at + j] == text[j];
    assert s[at + 1..e] == name;
    assert s[e..] == Print(rest);
    assert forall j :: at + 1 <= j < e ==> s[j] == name[j - at - 1];
    if rest == [] {
      FindNone(s, at + 1);
    } else {
      assert s[e] == s[e..][0] == '/';
      FindIs(s, at + 1, e);
    }
  }
}
