/** The functions of Go's strings package that the other modules rely on. */
module Strings {

  /** strings.Join(parts, ",") */
  function Join(parts: seq<string>): string {
    if parts == [] then ""
    else if |parts| == 1 then parts[0]
    else parts[0] + "," + Join(parts[1..])
  }

  function FirstComma(k: string): nat {
    if k == [] || k[0] == ',' then 0 else 1 + FirstComma(k[1..])
  }

  lemma {:induction false} FirstCommaAfter(name: string, rest: string)
    requires ',' !in name && (rest == [] || rest[0] == ',')
    ensures FirstComma(name + rest) == |name|
  {
    if name != [] {
      assert (name + rest)[1..] == name[1..] + rest;
      FirstCommaAfter(name[1..], rest);
    } else {
      assert name + rest == rest;
    }
  }

  /** A key gives back its first name, and whether more follow. */
  lemma JoinStartsWith(a: seq<string>)
    requires a != [] && ',' !in a[0]
    ensures FirstComma(Join(a)) == |a[0]| && a[0] <= Join(a)
    ensures |Join(a)| == |a[0]| <==> |a| == 1
  {
    var rest := if |a| == 1 then "" else "," + Join(a[1..]);
    assert Join(a) == a[0] + rest;
    FirstCommaAfter(a[0], rest);
  }

  lemma {:induction false} JoinIsInjective(a: seq<string>, b: seq<string>)
    requires a != [] && b != [] && Join(a) == Join(b)
    requires forall n :: n in a || n in b ==> ',' !in n
    ensures a == b
  {
    assert a[0] in a && b[0] in b;
    JoinStartsWith(a);
    JoinStartsWith(b);
    assert a[0] == Join(a)[..|a[0]|] == b[0];
    assert a == [a[0]] + a[1..] && b == [b[0]] + b[1..];
    if |a| > 1 {
      assert Join(a[1..]) == Join(a)[|a[0]| + 1..] == Join(b[1..]);
      JoinIsInjective(a[1..], b[1..]);
    }
  }

  /** strings.Split(s, ","), where `part` is the part being read. */
  function Split(s: string, part: string := ""): (parts: seq<string>)
    ensures parts != []
    decreases |s|
  {
    if s == "" then [part]
    else if s[0] == ',' then [part] + Split(s[1..], "")
    else Split(s[1..], part + [s[0]])
  }

  lemma {:induction false} SplitJoins(s: string, part: string)
    requires ',' !in part
    ensures Join(Split(s, part)) == part + s && forall p :: p in Split(s, part) ==> ',' !in p
    decreases |s|
  {
    if s == "" {
    } else if s[0] == ',' {
      SplitJoins(s[1..], "");
      var rest := Split(s[1..], "");
      assert ([part] + rest)[1..] == rest && s == "," + s[1..];
    } else {
      SplitJoins(s[1..], part + [s[0]]);
      assert part + [s[0]] + s[1..] == part + s;
    }
  }

  /** The parts of a string are the one sequence of strings without commas that joins to it. */
  lemma SplitExactly(s: string, parts: seq<string>)
    requires parts != [] && forall p :: p in parts ==> ',' !in p
    ensures Split(s) == parts <==> Join(parts) == s
    ensures Join(Split(s)) == s && forall p :: p in Split(s) ==> ',' !in p
  {
    hide Join, Split;
    SplitJoins(s, "");
    assert "" + s == s;
    if Join(parts) == s {
      JoinIsInjective(parts, Split(s));
    }
  }

  lemma SplitNothing()
    ensures Split("") == [""]
  {
  }

  /** strings.ToLower on ASCII */
  function ToLower(s: string): (r: string)
    ensures |r| == |s|
    ensures forall i :: 0 <= i < |s| ==> r[i] == if 'A' <= s[i] <= 'Z' then (s[i] as int + 32) as char else s[i]
  {
    if s == "" then ""
    else [if 'A' <= s[0] <= 'Z' then s[0] - 'A' + 'a' else s[0]] + ToLower(s[1..])
  }
}
