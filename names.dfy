/**
 * The two static tables of the builder and the parsing of a tag spec such as
 * "button.primary.large" into its tag name and class names.
 */
module Names {
  import opened Wrappers
  import opened Dom

  /** The tag names that are created in the SVG namespace. Matching is case-sensitive. */
  const SvgTags: seq<string> := [
    "circle", "clipPath", "defs", "desc", "ellipse", "g", "image", "line",
    "linearGradient", "marker", "mask", "path", "pattern", "polygon",
    "polyline", "radialGradient", "rect", "stop", "svg", "switch", "symbol",
    "text", "textPath", "title", "tspan", "use"
  ]

  const SvgNamespace := "http://www.w3.org/2000/svg"

  const XlinkNamespace := "http://www.w3.org/1999/xlink"

  /** Attribute names that are set with a namespace, and that namespace. */
  const NamespacedAttributes: map<string, string> := map["xlink:href" := XlinkNamespace]

  /** The namespace an attribute key is set in: the xlink one for "xlink:href", none otherwise. */
  function AttributeNamespace(key: string): (ns: Option<string>)
    ensures ns == Some(XlinkNamespace) <==> key == "xlink:href"
    ensures ns == None <==> key != "xlink:href"
  {
    if key in NamespacedAttributes then Some(NamespacedAttributes[key]) else None
  }

  /** The namespace the element for a tag name is created in. */
  function ElementNamespace(tag: string): (ns: string)
    ensures ns == SvgNamespace <==> tag in SvgTags
    ensures ns == HtmlNamespace <==> tag !in SvgTags
  {
    if tag in SvgTags then SvgNamespace else HtmlNamespace
  }

  /** String.prototype.split('.'): the pieces between the dots, at least one. */
  function Split(s: string): (parts: seq<string>)
    ensures |parts| >= 1
    ensures forall i :: 0 <= i < |parts| ==> '.' !in parts[i]
  {
    if s == [] then [""]
    else
      var rest := Split(s[1..]);
      if s[0] == '.' then [""] + rest
      else [[s[0]] + rest[0]] + rest[1..]
  }

  /** The pieces written back with a dot between each two. */
  function Join(parts: seq<string>): string
    requires |parts| >= 1
  {
    if |parts| == 1 then parts[0] else parts[0] + "." + Join(parts[1..])
  }

  /** The tag name: the text before the first dot, or the whole spec when it has none. */
  function TagName(spec: string): (tag: string)
    ensures tag <= spec && '.' !in tag
    ensures |tag| < |spec| ==> spec[|tag|] == '.'
  {
    SplitHead(spec);
    Split(spec)[0]
  }

  /** The class names: every later dot-separated piece, in order; none exactly when the spec has no dot. */
  function ClassNames(spec: string): (names: seq<string>)
    ensures names == [] <==> '.' !in spec
    ensures forall i :: 0 <= i < |names| ==> '.' !in names[i]
  {
    SplitSingle(spec);
    Split(spec)[1..]
  }

  /** The first piece is the longest dot-free prefix. */
  lemma {:induction false} SplitHead(s: string)
    ensures Split(s)[0] <= s
    ensures |Split(s)[0]| < |s| ==> s[|Split(s)[0]|] == '.'
  {
    if s != [] && s[0] != '.' {
      SplitHead(s[1..]);
      var h := Split(s[1..])[0];
      assert Split(s)[0] == [s[0]] + h;
      assert s == [s[0]] + s[1..];
    }
  }

  /** The spec splits into one piece exactly when it has no dot. */
  lemma {:induction false} SplitSingle(s: string)
    ensures |Split(s)| == 1 <==> '.' !in s
  {
    if s != [] {
      SplitSingle(s[1..]);
      assert s == [s[0]] + s[1..];
      assert '.' in s <==> s[0] == '.' || '.' in s[1..];
    }
  }

  /** The host accepts the tag name and every class name of the spec. */
  predicate ValidTagSpec(spec: string) {
    var parts := Split(spec);
    forall i :: 0 <= i < |parts| ==> ValidToken(parts[i])
  }

  /** Under a valid spec the tag name and every class name are tokens the host accepts. */
  lemma ValidTagSpecParts(spec: string)
    requires ValidTagSpec(spec)
    ensures ValidToken(TagName(spec))
    ensures forall i :: 0 <= i < |ClassNames(spec)| ==> ValidToken(ClassNames(spec)[i])
  {
    var parts := Split(spec);
    forall i | 0 <= i < |parts[1..]| ensures ValidToken(parts[1..][i]) {
      assert parts[1..][i] == parts[i + 1];
    }
  }

  lemma JoinCons(c: char, parts: seq<string>)
    requires |parts| >= 1
    ensures Join([[c] + parts[0]] + parts[1..]) == [c] + Join(parts)
  {
    var ps := [[c] + parts[0]] + parts[1..];
    if |parts| > 1 {
      var j := Join(parts[1..]);
      assert ps[1..] == parts[1..];
      assert Join(ps) == ([c] + parts[0]) + "." + j;
      assert Join(parts) == parts[0] + "." + j;
      DotAssoc([c], parts[0], j);
    } else {
      assert ps == [[c] + parts[0]];
    }
  }

  /** Regrouping around a joining dot. */
  lemma DotAssoc(a: string, b: string, d: string)
    ensures (a + b) + "." + d == a + (b + "." + d)
  {
    assert (a + b) + "." == a + (b + ".");
  }

  /** Splitting and joining again gives back the spec: nothing is lost. */
  lemma {:induction false} JoinSplit(s: string)
    ensures Join(Split(s)) == s
  {
    if s != [] {
      JoinSplit(s[1..]);
      var rest := Split(s[1..]);
      if s[0] == '.' {
        assert Split(s) == [""] + rest;
        assert (([""] + rest)[1..]) == rest;
        assert Join(Split(s)) == "" + "." + Join(rest);
      } else {
        JoinCons(s[0], rest);
      }
    }
  }

  /** A dot-free prefix glues onto the first piece. */
  lemma {:induction false} SplitPrefix(a: string, s: string)
    requires '.' !in a
    ensures Split(a + s) == [a + Split(s)[0]] + Split(s)[1..]
  {
    var t := Split(s);
    if a != [] {
      assert (a + s)[0] == a[0] && (a + s)[1..] == a[1..] + s;
      assert a[0] != '.';
      SplitPrefix(a[1..], s);
      var rest := Split(a[1..] + s);
      assert rest[0] == a[1..] + t[0] && rest[1..] == t[1..];
      assert Split(a + s) == [[a[0]] + rest[0]] + rest[1..];
      assert [a[0]] + (a[1..] + t[0]) == a + t[0];
    } else {
      assert a + s == s && a + t[0] == t[0];
      assert t == [t[0]] + t[1..];
    }
  }

  /** Joining dot-free pieces and splitting again gives back the pieces. */
  lemma {:induction false} SplitJoin(parts: seq<string>)
    requires |parts| >= 1
    requires forall i :: 0 <= i < |parts| ==> '.' !in parts[i]
    ensures Split(Join(parts)) == parts
  {
    if |parts| == 1 {
      SplitPrefix(parts[0], "");
      assert parts[0] + "" == parts[0];
    } else {
      SplitJoin(parts[1..]);
      var tail := "." + Join(parts[1..]);
      SplitPrefix(parts[0], tail);
      assert tail[0] == '.' && tail[1..] == Join(parts[1..]);
      assert Split(tail) == [""] + Split(tail[1..]);
      assert Split(tail)[0] == "" && Split(tail)[1..] == parts[1..];
      assert parts[0] + "" == parts[0];
      assert parts[0] + "." + Join(parts[1..]) == parts[0] + tail;
      assert parts == [parts[0]] + parts[1..];
    }
  }

  /** A spec without a dot is all tag name and gives no class names. */
  lemma {:induction false} SplitNoDot(s: string)
    requires '.' !in s
    ensures Split(s) == [s]
  {
    SplitPrefix(s, "");
    assert s + "" == s;
  }
}
