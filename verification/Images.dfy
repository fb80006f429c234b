/** The text form of docker images: [registry/][namespace/]repository[:version]. */
module Images {
  import opened Wrappers
  import opened Strings

  datatype DockerImage = DockerImage(registry: string, namespace: string, repository: string, version: string)

  predicate IsLower(c: char) { 'a' <= c <= 'z' }

  predicate IsNamespace(s: string) {
    4 <= |s| <= 30 && forall i :: 0 <= i < |s| ==> IsLower(s[i]) || IsDigit(s[i]) || s[i] == '_'
  }

  predicate IsImage(s: string) {
    s != "" && forall i :: 0 <= i < |s| ==> IsLower(s[i]) || IsDigit(s[i]) || s[i] in "-_."
  }

  predicate IsVersion(s: string) {
    s != "" && forall i :: 0 <= i < |s| ==> IsLower(s[i]) || 'A' <= s[i] <= 'Z' || IsDigit(s[i]) || s[i] in "-._"
  }

  predicate ContainsRegistry(parts: seq<string>) {
    (|parts| == 2 && ('.' in parts[0] || ':' in parts[0])) || |parts| == 3
  }

  /** What parsing comes to, in one piece. */
  function Parsed(input: string): Option<DockerImage> {
    var parts := Split(input, '/');
    if input == "" || ' ' in input || |parts| > 3 then None
    else
      var registry := if ContainsRegistry(parts) then parts[0] else "";
      var path := if ContainsRegistry(parts) then parts[1..] else parts;
      var namespace := if |path| == 2 then path[0] else "";
      var names := Split(path[|path| - 1], ':');
      var version := if |names| == 2 then names[1] else "";
      if (|path| == 2 && !IsNamespace(namespace)) || |names| > 2 || (|names| == 2 && !IsVersion(version)) || !IsImage(names[0])
      then None
      else Some(DockerImage(registry, namespace, names[0], version))
  }

  /** Parsing as it is done, filling in the image step by step. */
  method Parse(input: string) returns (r: Option<DockerImage>)
    ensures r == Parsed(input)
  {
    if |input| == 0 || ' ' in input { return None; }
    var splitByPath := Split(input, '/');
    if |splitByPath| > 3 { return None; }
    var img := DockerImage("", "", "", "");
    if ContainsRegistry(splitByPath) {
      img := img.(registry := splitByPath[0]);
      splitByPath := splitByPath[1..];
    }
    if |splitByPath| == 1 {
      img := img.(repository := splitByPath[0]);
    } else if |splitByPath| == 2 {
      img := img.(namespace := splitByPath[0], repository := splitByPath[1]);
      if !IsNamespace(img.namespace) { return None; }
    } else {
      return None;
    }
    var splitByVersion := Split(img.repository, ':');
    if |splitByVersion| == 2 {
      img := img.(repository := splitByVersion[0], version := splitByVersion[1]);
      if !IsVersion(img.version) { return None; }
    } else if |splitByVersion| == 1 {
      img := img.(repository := splitByVersion[0], version := "");
    } else {
      return None;
    }
    if !IsImage(img.repository) { return None; }
    r := Some(img);
  }

  function Print(img: DockerImage): string {
    (if img.registry != "" then img.registry + "/" else "")
    + (if img.namespace != "" then img.namespace + "/" else "")
    + img.repository
    + (if img.version != "" then ":" + img.version else "")
  }

  /** The last path element: repository and version. */
  function Last(img: DockerImage): string {
    img.repository + if img.version != "" then ":" + img.version else ""
  }

  /** The images that parsing gives. */
  ghost predicate Parseable(img: DockerImage) {
    && IsImage(img.repository) && (img.version != "" ==> IsVersion(img.version))
    && (img.namespace != "" ==> IsNamespace(img.namespace))
    && '/' !in img.registry && ' ' !in img.registry
    && (img.registry != "" && img.namespace == "" ==> '.' in img.registry || ':' in img.registry)
  }

  lemma ParsedIsParseable(input: string)
    requires Parsed(input).Some?
    ensures Parseable(Parsed(input).value)
  {
    JoinSplit(input, '/');
    PartsHaveOnlyCharsOf(input, '/', ' ');
  }

  lemma PartChars(img: DockerImage, c: char)
    requires Parseable(img) && c in "/ :"
    ensures c !in img.repository && c !in img.version && c !in img.namespace
  {
    assert c == '/' || c == ' ' || c == ':';
  }

  lemma LastParts(img: DockerImage)
    requires Parseable(img)
    ensures Split(Last(img), ':') == if img.version != "" then [img.repository, img.version] else [img.repository]
    ensures '/' !in Last(img) && ' ' !in Last(img) && Last(img) != ""
  {
    PartChars(img, '/');
    PartChars(img, ' ');
    PartChars(img, ':');
    hide IsVersion, IsNamespace;
    if img.version != "" {
      SplitFirstPart(img.repository, img.version, ':');
      SplitOnePart(img.version, ':');
      assert Last(img) == img.repository + ":" + img.version;
    } else {
      SplitOnePart(img.repository, ':');
      assert Last(img) == img.repository;
    }
  }

  /** The path of a printed image. An empty registry before a namespace does not show. */
  function Path(img: DockerImage): seq<string> {
    (if img.registry != "" then [img.registry] else []) + (if img.namespace != "" then [img.namespace] else []) + [Last(img)]
  }

  lemma PathIsSplit(img: DockerImage)
    requires Parseable(img)
    ensures Split(Print(img), '/') == Path(img) && ' ' !in Print(img) && Print(img) != ""
  {
    hide IsVersion, IsNamespace, IsImage, Last, Split, Print;
    LastParts(img);
    PartChars(img, '/');
    PartChars(img, ' ');
    PrintIsPath(img);
    var last := Last(img);
    SplitOnePart(last, '/');
    if img.namespace != "" {
      SplitFirstPart(img.namespace, last, '/');
    }
    if img.registry != "" {
      SplitFirstPart(img.registry, NamePath(img), '/');
    }
  }

  /** The printed image after the registry. */
  function NamePath(img: DockerImage): string {
    if img.namespace != "" then img.namespace + "/" + Last(img) else Last(img)
  }

  lemma PrintIsPath(img: DockerImage)
    ensures Print(img) == if img.registry != "" then img.registry + "/" + NamePath(img) else NamePath(img)
  {
    var host := if img.registry != "" then img.registry + "/" else "";
    var head := if img.namespace != "" then img.namespace + "/" else "";
    var tail := if img.version != "" then ":" + img.version else "";
    Regroup(host, head, img.repository, tail);
    assert "" + Last(img) == Last(img) && "" + (head + Last(img)) == head + Last(img);
  }

  lemma Regroup(host: string, head: string, repository: string, tail: string)
    ensures host + head + repository + tail == host + (head + (repository + tail))
  {
  }

  lemma NoRegistry(s: string)
    requires IsNamespace(s)
    ensures '.' !in s && ':' !in s
  {
  }

  /** Any parseable image prints to text that parses to it. */
  lemma PrintThenParse(img: DockerImage)
    requires Parseable(img)
    ensures Parsed(Print(img)) == Some(img)
  {
    PathIsSplit(img);
    LastParts(img);
    hide IsVersion, IsImage, IsNamespace, Last, Print, Split;
    if img.namespace != "" { NoRegistry(img.namespace); }
    var parts := Path(img);
    assert parts[|parts| - 1] == Last(img);
    if img.registry != "" {
      assert parts[0] == img.registry && parts[1..][|parts| - 2] == Last(img);
    }
  }

  /** Printing a parsed image and parsing again gives the same image. */
  lemma ImageRoundTrip(input: string)
    requires Parsed(input).Some?
    ensures Parsed(Print(Parsed(input).value)) == Parsed(input)
  {
    ParsedIsParseable(input);
    PrintThenParse(Parsed(input).value);
  }

  // ----- Every text that is an image -----

  /** Joined again, the parts of a parsed image are the text, but for the slash after an empty registry. */
  lemma ParsedText(input: string)
    requires Parsed(input).Some?
    ensures var img := Parsed(input).value;
            input == Print(img) || (img.registry == "" && img.namespace != "" && input == "/" + Print(img))
  {
    var img, parts := Parsed(input).value, Split(input, '/');
    var last := parts[|parts| - 1];
    JoinSplit(input, '/');
    JoinOfFew(parts, '/');
    JoinSplit(last, ':');
    LastIs(img, last);
    PrintIsPath(img);
    hide Split, Join, Print, Last, IsVersion, IsImage, IsNamespace;
    if |parts| == 3 {
      NotEmpty(img.namespace);
      assert "" + "/" + (img.namespace + "/" + last) == "/" + (img.namespace + "/" + last);
    } else if |parts| == 2 && !ContainsRegistry(parts) {
      NotEmpty(img.namespace);
    }
  }

  lemma LastIs(img: DockerImage, last: string)
    requires Join(Split(last, ':'), ':') == last
    requires var names := Split(last, ':');
             && 1 <= |names| <= 2 && img.repository == names[0]
             && img.version == (if |names| == 2 then names[1] else "") && (|names| == 2 ==> names[1] != "")
    ensures last == Last(img)
  {
    hide Split;
  }

  lemma NotEmpty(s: string)
    requires IsNamespace(s)
    ensures s != ""
  {
  }

  lemma EmptyRegistry(img: DockerImage)
    requires Parseable(img) && img.registry == "" && img.namespace != ""
    ensures Parsed("/" + Print(img)) == Some(img)
  {
    PathIsSplit(img);
    LastParts(img);
    SplitFirstPart("", Print(img), '/');
    assert "" + "/" + Print(img) == "/" + Print(img);
    hide Split, Print, Last, IsVersion, IsImage, IsNamespace;
    var parts := [""] + Path(img);
    assert parts[1..] == Path(img) && Path(img) == [img.namespace, Last(img)];
  }

  /** The texts that are images, and what they mean: the printed form, which may have a slash for an empty registry before a namespace. */
  lemma ImageTexts(input: string, img: DockerImage)
    ensures Parsed(input) == Some(img) <==>
              Parseable(img) && (input == Print(img) || (img.registry == "" && img.namespace != "" && input == "/" + Print(img)))
  {
    if Parsed(input) == Some(img) {
      ParsedIsParseable(input);
      ParsedText(input);
    }
    hide Parsed;
    if Parseable(img) {
      PrintThenParse(img);
      if img.registry == "" && img.namespace != "" { EmptyRegistry(img); }
    }
  }
}
