/** The text form of volumes: [hostpath:]path[:options] and type[@mountoptions]:path. */
module Volumes {
  import opened Wrappers
  import opened Strings
  import opened Jobs

  predicate ValidType(t: string) { t in {"local", "instance", ""} }

  predicate ValidOption(o: string) { o in {"rw", "ro", "shared", "private"} }

  /** The type before the first "@" and the mount options after it, if the type is valid. */
  function ParseVolumeType(input: string): Option<(string, seq<string>)> {
    var parts := Split(input, '@');
    if !ValidType(parts[0]) then None
    else Some((parts[0], if |parts| == 1 then [] else Split(Join(parts[1..], '@'), ',')))
  }

  function ParseVolumeOptions(input: string): Option<seq<string>> {
    var parts := Split(input, ',');
    if forall i :: 0 <= i < |parts| ==> ValidOption(parts[i]) then Some(parts) else None
  }

  function ParseVolume(input: string): Option<Volume> {
    var parts := Split(input, ':');
    if |parts| == 1 then Some(Volume(input, "instance", "", [], []))
    else if |parts| > 3 then None
    else
      var vtype := ParseVolumeType(parts[0]);
      if |parts| == 2 then
        (if vtype.Some? then Some(Volume(parts[1], vtype.value.0, "", [], vtype.value.1))
         else Some(Volume(parts[1], "local", parts[0], [], [])))
      else if vtype.Some? then None
      else
        var options := ParseVolumeOptions(parts[2]);
        if options.None? then None else Some(Volume(parts[1], "local", parts[0], options.value, []))
  }

  function Print(v: Volume): string {
    if v.vtype != "local" && v.vtype != "instance" then ""
    else
      var first := if v.vtype == "local" then v.hostPath
                   else if v.mountOptions == [] then "instance"
                   else "instance@" + Join(v.mountOptions, ',');
      Join(if v.options == [] then [first, v.path] else [first, v.path, Join(v.options, ',')], ':')
  }

  lemma {:induction false} JoinLacks(parts: seq<string>, sep: char, c: char)
    requires c != sep && forall i :: 0 <= i < |parts| ==> c !in parts[i]
    ensures c !in Join(parts, sep)
  {
    if |parts| > 1 { JoinLacks(parts[1..], sep, c); }
  }

  /** What parsing leaves in the parts of a volume. */
  lemma ParsedParts(input: string)
    requires ParseVolume(input).Some?
    ensures var v := ParseVolume(input).value;
            && ':' !in v.path && ':' !in v.hostPath
            && (v.vtype == "instance" ==> v.options == [] && v.hostPath == "")
            && (v.hostPath != "" ==> v.vtype == "local" && v.mountOptions == [] && ParseVolumeType(v.hostPath) == None)
            && (v.vtype == "local" && v.hostPath == "" ==> v.options == [])
            && (v.options != [] ==> ParseVolumeOptions(Join(v.options, ',')) == Some(v.options) && ':' !in Join(v.options, ','))
            && (v.mountOptions != [] ==> SplitsAs(v.mountOptions, ','))
  {
    JoinSplit(input, ':');
    var parts := Split(input, ':');
    if |parts| == 1 {
      assert Join(parts, ':') == input;
    } else if |parts| == 2 {
      if ParseVolumeType(parts[0]).Some? { MountOptionsSplit(parts[0]); }
    } else if |parts| == 3 {
      EmptyIsAType();
      if ParseVolumeOptions(parts[2]).Some? {
        JoinSplit(parts[2], ',');
      }
    }
  }

  /** Joining and splitting the parts is without loss, and leaves no colon. */
  ghost predicate SplitsAs(parts: seq<string>, sep: char) {
    Split(Join(parts, sep), sep) == parts && ':' !in Join(parts, sep)
  }

  lemma EmptyIsAType()
    ensures ParseVolumeType("").Some?
  {
  }

  lemma MountOptionsSplit(input: string)
    requires ParseVolumeType(input).Some? && ':' !in input
    ensures ParseVolumeType(input).value.1 != [] ==> SplitsAs(ParseVolumeType(input).value.1, ',')
  {
    var parts := Split(input, '@');
    if |parts| > 1 {
      PartsHaveOnlyCharsOf(input, '@', ':');
      var rest := Join(parts[1..], '@');
      JoinLacks(parts[1..], '@', ':');
      JoinSplit(rest, ',');
    }
  }

  lemma SplitThree(a: string, b: string, c: string, sep: char)
    requires sep !in a && sep !in b && sep !in c
    ensures Split(Join([a, b, c], sep), sep) == [a, b, c] && Split(Join([a, b], sep), sep) == [a, b]
  {
    SplitJoin([a, b, c], sep);
    SplitJoin([a, b], sep);
  }

  lemma TypeOfInstance(mountOptions: seq<string>)
    requires mountOptions != [] ==> SplitsAs(mountOptions, ',')
    ensures var first := if mountOptions == [] then "instance" else "instance@" + Join(mountOptions, ',');
            ParseVolumeType(first) == Some(("instance", mountOptions)) && ':' !in first
  {
    if mountOptions == [] {
      SplitOnePart("instance", '@');
    } else {
      var rest := Join(mountOptions, ',');
      SplitFirstPart("instance", rest, '@');
      assert "instance" + "@" + rest == "instance@" + rest;
      JoinSplit(rest, '@');
      assert (["instance"] + Split(rest, '@'))[1..] == Split(rest, '@');
    }
  }

  /**
  Printing a parsed volume and parsing again gives the same volume exactly when it is an instance
  volume or a local volume with a host path. The others come from texts like "local:/x" and ":/x".
  */
  lemma VolumeRoundTrip(input: string)
    requires ParseVolume(input).Some?
    ensures var v := ParseVolume(input).value;
            ParseVolume(Print(v)) == Some(v) <==> v.vtype == "instance" || (v.vtype == "local" && v.hostPath != "")
  {
    var v := ParseVolume(input).value;
    ParsedParts(input);
    if v.vtype == "instance" {
      InstanceRoundTrip(v);
    } else if v.vtype == "local" && v.hostPath != "" {
      LocalRoundTrip(v);
    } else if v.vtype == "local" {
      SplitThree("", v.path, "", ':');
      EmptyIsAType();
      assert Print(v) == Join(["", v.path], ':');
    } else {
      assert Print(v) == "";
    }
  }

  lemma InstanceRoundTrip(v: Volume)
    requires v.vtype == "instance" && v.options == [] && v.hostPath == "" && ':' !in v.path
    requires v.mountOptions != [] ==> SplitsAs(v.mountOptions, ',')
    ensures ParseVolume(Print(v)) == Some(v)
  {
    TypeOfInstance(v.mountOptions);
    var first := if v.mountOptions == [] then "instance" else "instance@" + Join(v.mountOptions, ',');
    SplitThree(first, v.path, "", ':');
    assert Print(v) == Join([first, v.path], ':');
  }

  lemma LocalRoundTrip(v: Volume)
    requires v.vtype == "local" && v.mountOptions == [] && ':' !in v.path && ':' !in v.hostPath
    requires ParseVolumeType(v.hostPath) == None
    requires v.options != [] ==> ParseVolumeOptions(Join(v.options, ',')) == Some(v.options) && ':' !in Join(v.options, ',')
    ensures ParseVolume(Print(v)) == Some(v)
  {
    var options := if v.options == [] then "" else Join(v.options, ',');
    SplitThree(v.hostPath, v.path, options, ':');
    assert Print(v) == Join(if v.options == [] then [v.hostPath, v.path] else [v.hostPath, v.path, options], ':');
  }

  // ----- Every text that is a volume -----

  /** A type alone, or with mount options after the first "@". */
  ghost predicate IsTypeText(text: string, vtype: string, mountOptions: seq<string>) {
    && vtype in {"local", "instance", ""}
    && if '@' in text then exists o :: text == vtype + "@" + o && mountOptions == Split(o, ',')
       else text == vtype && mountOptions == []
  }

  lemma TypeTexts(text: string, vtype: string, mountOptions: seq<string>)
    ensures ParseVolumeType(text) == Some((vtype, mountOptions)) <==> IsTypeText(text, vtype, mountOptions)
  {
    assert '@' !in "local" && '@' !in "instance" && '@' !in "";
    JoinSplit(text, '@');
    var parts := Split(text, '@');
    if |parts| == 1 {
      assert parts[0] == text;
    } else {
      var o := Join(parts[1..], '@');
      assert text == parts[0] + "@" + o;
    }
    if '@' in text {
      forall o | text == vtype + "@" + o && vtype in {"local", "instance", ""} ensures parts == [vtype] + Split(o, '@') && Join(parts[1..], '@') == o {
        SplitFirstPart(vtype, o, '@');
        JoinSplit(o, '@');
        assert ([vtype] + Split(o, '@'))[1..] == Split(o, '@');
      }
    } else {
      SplitOnePart(text, '@');
    }
  }

  /** A path alone is an instance volume, as if its type were written. */
  lemma PathAlone(p: string)
    requires ':' !in p
    ensures ParseVolume(p) == Some(Volume(p, "instance", "", [], []))
    ensures ParseVolume(p) == ParseVolume("instance:" + p)
  {
    hide Split, ParseVolumeType;
    TypeOfInstance([]);
    SplitOnePart(p, ':');
    SplitTwoParts("instance", p, ':');
    assert "instance" + ":" + p == "instance:" + p;
  }

  /** Before the only colon there is a type, or else the host path of a local volume. */
  lemma TwoPartVolume(h: string, p: string)
    requires ':' !in h && ':' !in p
    ensures forall t, o :: IsTypeText(h, t, o) ==> ParseVolume(h + ":" + p) == Some(Volume(p, t, "", [], o))
    ensures (forall t, o :: !IsTypeText(h, t, o)) ==> ParseVolume(h + ":" + p) == Some(Volume(p, "local", h, [], []))
  {
    SplitTwoParts(h, p, ':');
    hide Split, IsTypeText, ParseVolumeType;
    forall t, o ensures ParseVolumeType(h) == Some((t, o)) <==> IsTypeText(h, t, o) { TypeTexts(h, t, o); }
    if ParseVolumeType(h).Some? {
      var r := ParseVolumeType(h).value;
      assert IsTypeText(h, r.0, r.1);
    }
  }

  /** With two colons there are options at the end, all of them known, and no type. */
  lemma ThreePartVolume(h: string, p: string, o: string)
    requires ':' !in h && ':' !in p && ':' !in o
    ensures ParseVolume(h + ":" + p + ":" + o) ==
              if (forall t, m :: !IsTypeText(h, t, m)) && (forall x :: x in Split(o, ',') ==> x in {"rw", "ro", "shared", "private"})
              then Some(Volume(p, "local", h, Split(o, ','), [])) else None
  {
    SplitThreeParts(h, p, o, ':');
    var parts := Split(o, ',');
    assert (forall x :: x in parts ==> ValidOption(x)) <==> forall i :: 0 <= i < |parts| ==> ValidOption(parts[i]);
    hide Split, IsTypeText, ParseVolumeType;
    forall t, m ensures ParseVolumeType(h) == Some((t, m)) <==> IsTypeText(h, t, m) { TypeTexts(h, t, m); }
    if ParseVolumeType(h).Some? {
      var r := ParseVolumeType(h).value;
      assert IsTypeText(h, r.0, r.1);
    }
  }

  /** With more colons it is no volume. */
  lemma MoreParts(h: string, p: string, o: string, rest: string)
    requires ':' !in h && ':' !in p && ':' !in o
    ensures ParseVolume(h + ":" + p + ":" + o + ":" + rest) == None
  {
    SplitMoreParts(h, p, o, rest, ':');
  }

  // ----- Every volume that can be written -----

  /**
  An instance volume without host path and options, or a local volume with a host path that is no
  type and with known options, and no colon where none can be.
  */
  ghost predicate Writable(v: Volume) {
    && ':' !in v.path
    && if v.vtype == "instance" then
         v.hostPath == "" && v.options == [] && forall i :: 0 <= i < |v.mountOptions| ==> ':' !in v.mountOptions[i] && ',' !in v.mountOptions[i]
       else
         && v.vtype == "local" && v.mountOptions == [] && ':' !in v.hostPath && (forall t, o :: !IsTypeText(v.hostPath, t, o))
         && forall i :: 0 <= i < |v.options| ==> v.options[i] in {"rw", "ro", "shared", "private"}
  }

  /** A volume survives printing and parsing if and only if it can be written. */
  lemma WrittenIsRead(v: Volume)
    ensures ParseVolume(Print(v)) == Some(v) <==> Writable(v)
  {
    if ParseVolume(Print(v)) == Some(v) {
      ParsedParts(Print(v));
      VolumeRoundTrip(Print(v));
      ReadIsWritable(v);
    }
    if Writable(v) {
      if v.vtype == "instance" {
        OptionsSplit(v.mountOptions);
        InstanceRoundTrip(v);
      } else {
        NoType(v.hostPath);
        if v.options != [] { KnownOptions(v.options); }
        LocalRoundTrip(v);
      }
    }
  }

  lemma NoType(h: string)
    ensures ParseVolumeType(h) == None <==> forall t, o :: !IsTypeText(h, t, o)
  {
    hide IsTypeText, ParseVolumeType;
    forall t, o ensures ParseVolumeType(h) == Some((t, o)) <==> IsTypeText(h, t, o) { TypeTexts(h, t, o); }
    if ParseVolumeType(h).Some? {
      var r := ParseVolumeType(h).value;
      assert IsTypeText(h, r.0, r.1);
    }
  }

  lemma OptionsSplit(options: seq<string>)
    requires forall i :: 0 <= i < |options| ==> ':' !in options[i] && ',' !in options[i]
    ensures options != [] ==> SplitsAs(options, ',')
  {
    if options != [] {
      SplitJoin(options, ',');
      JoinLacks(options, ',', ':');
    }
  }

  lemma KnownOptions(options: seq<string>)
    requires options != [] && forall i :: 0 <= i < |options| ==> ValidOption(options[i])
    ensures ParseVolumeOptions(Join(options, ',')) == Some(options) && ':' !in Join(options, ',')
  {
    hide ValidOption;
    forall i | 0 <= i < |options| ensures ':' !in options[i] && ',' !in options[i] { NoSeparators(options[i]); }
    OptionsSplit(options);
  }

  lemma NoSeparators(o: string)
    requires ValidOption(o)
    ensures ':' !in o && ',' !in o
  {
    assert ':' !in "rw" && ':' !in "ro" && ':' !in "shared" && ':' !in "private";
    assert ',' !in "rw" && ',' !in "ro" && ',' !in "shared" && ',' !in "private";
  }

  lemma ReadIsWritable(v: Volume)
    requires ':' !in v.path && ':' !in v.hostPath && (v.vtype == "instance" || (v.vtype == "local" && v.hostPath != ""))
    requires v.vtype == "instance" ==> v.options == [] && v.hostPath == ""
    requires v.hostPath != "" ==> v.vtype == "local" && v.mountOptions == [] && ParseVolumeType(v.hostPath) == None
    requires v.options != [] ==> ParseVolumeOptions(Join(v.options, ',')) == Some(v.options)
    requires v.mountOptions != [] ==> SplitsAs(v.mountOptions, ',')
    ensures Writable(v)
  {
    NoType(v.hostPath);
    if v.mountOptions != [] {
      var text := Join(v.mountOptions, ',');
      JoinSplit(text, ',');
      PartsHaveOnlyCharsOf(text, ',', ':');
    }
    hide IsTypeText;
  }
}
