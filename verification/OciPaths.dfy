/** Names of archive members: ci/private_cert/image_admission.py, `regular_path`, and the prefix tests
    `inspect_oci` makes on them. */
module OciPaths {
  import opened Text
  import opened OciLayers

  /** The parts of `PurePosixPath(name)`, for a name that does not start with '/'. */
  function Parts(name: string): Path {
    Named(Split(name, '/'))
  }

  function Named(parts: seq<string>): (r: seq<string>)
    ensures forall p :: p in r ==> p in parts && p != "" && p != "."
  {
    if parts == [] then []
    else (if parts[0] == "" || parts[0] == "." then [] else [parts[0]]) + Named(parts[1..])
  }

  /** `str(PurePosixPath(name))`. */
  function PathText(parts: Path): string {
    if parts == [] then "." else Join(parts, "/")
  }

  /** Accepted by `regular_path`. */
  predicate Regular(name: string) {
    && name != "" && name[0] != '/'
    && ".." !in Parts(name)
    && PathText(Parts(name)) == name
    && '\\' !in name
    && forall c :: c in name ==> c >= ' '
  }

  lemma SplitStep(s: string, sep: char)
    requires s != []
    ensures var rest := Split(s[1..], sep);
      Split(s, sep) == if s[0] == sep then [[]] + rest else [[s[0]] + rest[0]] + rest[1..]
  {}

  /** Splitting is by the first character, also when more parts follow. */
  lemma SplitPrefixed(c: char, s: string, t: string, more: seq<string>, sep: char)
    requires Split(t, sep) == Split(s, sep) + more
    ensures Split([c] + t, sep) == Split([c] + s, sep) + more
  {
    SplitStep([c] + t, sep);
    SplitStep([c] + s, sep);
    assert ([c] + t)[1..] == t && ([c] + s)[1..] == s;
    hide Split;
    var rest := Split(s, sep);
    FirstAndRest(rest, more, c);
  }

  lemma FirstAndRest(rest: seq<string>, more: seq<string>, c: char)
    requires rest != []
    ensures [[c] + (rest + more)[0]] + (rest + more)[1..] == [[c] + rest[0]] + rest[1..] + more
    ensures [[]] + (rest + more) == [[]] + rest + more
  {}

  lemma {:induction false} SplitConcat(a: string, b: string, sep: char)
    ensures Split(a + [sep] + b, sep) == Split(a, sep) + Split(b, sep)
  {
    if a == [] {
      SplitStep([sep] + b, sep);
      assert a + [sep] + b == [sep] + b && ([sep] + b)[1..] == b;
      assert Split(a, sep) == [[]];
    } else {
      hide Split;
      SplitConcat(a[1..], b, sep);
      SplitPrefixed(a[0], a[1..], a[1..] + [sep] + b, Split(b, sep), sep);
      assert [a[0]] + a[1..] == a && [a[0]] + (a[1..] + [sep] + b) == a + [sep] + b;
    }
  }

  lemma Regroup(x: string, y: string, sep: string, z: string)
    ensures x + (y + sep + z) == x + y + sep + z
  {}

  lemma {:induction false} JoinConcat(a: seq<string>, b: seq<string>, sep: string)
    requires a != [] && b != []
    ensures Join(a + b, sep) == Join(a, sep) + sep + Join(b, sep)
  {
    if |a| == 1 {
      assert (a + b)[1..] == b;
    } else {
      assert (a + b)[1..] == a[1..] + b;
      JoinConcat(a[1..], b, sep);
      Regroup(a[0] + sep, Join(a[1..], sep), sep, Join(b, sep));
    }
  }

  /** A regular name other than "." is its components joined: no empty, "." or ".." component. */
  lemma RegularNormal(name: string)
    requires Regular(name) && name != "."
    ensures Parts(name) != [] && Parts(name) == Split(name, '/') && Join(Parts(name), "/") == name
    ensures forall p :: p in Parts(name) ==> p !in {"", ".", ".."} && '/' !in p
  {
    JoinSplit(name, '/');
    SplitJoin(Parts(name), '/');
  }

  lemma PrefixTestNamed(inner: string, outer: string)
    requires Regular(inner) && Regular(outer) && inner != "." && outer != "."
    ensures inner + "/" <= outer <==> Parts(inner) < Parts(outer)
    ensures inner == outer <==> Parts(inner) == Parts(outer)
  {
    hide Regular, Parts, Split, Join;
    RegularNormal(inner);
    RegularNormal(outer);
    if inner + "/" <= outer {
      var rest := outer[|inner| + 1..];
      assert outer == inner + ['/'] + rest;
      SplitConcat(inner, rest, '/');
    }
    if Parts(inner) < Parts(outer) {
      var rest := Parts(outer)[|Parts(inner)|..];
      assert Parts(outer) == Parts(inner) + rest;
      JoinConcat(Parts(inner), rest, "/");
    }
  }

  lemma DotParts()
    ensures Parts(".") == []
  {
    SplitPrepend(".", "", '/');
    assert "." + "" == "." && Split("", '/') == [""];
    assert Split(".", '/') == ["."];
  }

  /** The one regular name for which the text test is not the component test: "." stands for the
      root, above every path, yet is a textual prefix of none of them. */
  lemma DotIsRegular(outer: string)
    requires Regular(outer) && outer != "."
    ensures Regular(".") && Parts(".") < Parts(outer) && !("." + "/" <= outer)
  {
    DotParts();
    RegularNormal(outer);
    assert "./" <= outer ==> Split(outer, '/')[0] == "." by {
      if "./" <= outer {
        assert outer == "." + ['/'] + outer[2..];
        SplitConcat(".", outer[2..], '/');
        SplitPrepend(".", "", '/');
        assert "." + "" == ".";
      }
    }
    assert Parts(outer)[0] in Parts(outer);
  }

  /** The test `outer.startswith(inner + '/')` of two regular names is the test that the components
      of `inner` are a proper prefix of those of `outer`, exactly unless it compares "." with another
      name. */
  lemma PrefixTest(inner: string, outer: string)
    requires Regular(inner) && Regular(outer)
    ensures (inner + "/" <= outer <==> Parts(inner) < Parts(outer)) <==> !(inner == "." && outer != ".")
    ensures inner == outer <==> Parts(inner) == Parts(outer)
  {
    DotParts();
    if inner != "." && outer != "." {
      PrefixTestNamed(inner, outer);
    } else if outer != "." {
      DotIsRegular(outer);
    } else if inner != "." {
      RegularNormal(inner);
    }
  }
}
