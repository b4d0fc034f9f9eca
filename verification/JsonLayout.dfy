/** How a printed array or object is laid out: one element a line, or all on one line. */
module JsonLayout {
  import opened JsonText
  import opened JsonValue

  function Between(sep: string, xs: seq<string>): string
    decreases |xs|
  {
    if xs == [] then "" else if |xs| == 1 then xs[0] else xs[0] + (sep + Between(sep, xs[1..]))
  }

  lemma {:induction false} ElementsBetween(
      j: Json, i: nat, pretty: bool, step: nat, indent: nat, lines: seq<string>)
    requires j.Array? && i < |j.elements| && |lines| == |j.elements|
    requires forall k :: 0 <= k < |lines| ==> lines[k] == Spaces(indent) + Dump(j.elements[k], pretty, step, indent)
    ensures DumpElements(j, i, pretty, step, indent) == Between(if pretty then ",\n" else ",", lines[i..])
    decreases |lines| - i
  {
    hide Dump, Spaces;
    if i + 1 < |lines| {
      ElementsBetween(j, i + 1, pretty, step, indent, lines);
      assert lines[i..][1..] == lines[i + 1..];
      var rest := DumpElements(j, i + 1, pretty, step, indent);
      assert "," + "\n" == ",\n" && "," + "" == ",";
      assert DumpElements(j, i, pretty, step, indent) == lines[i] + ("," + Break(pretty) + rest);
    } else {
      assert lines[i] + "" == lines[i];
    }
  }

  lemma {:induction false} MembersBetween(
      j: Json, i: nat, pretty: bool, step: nat, indent: nat, lines: seq<string>)
    requires j.Object? && i < |j.members| && |lines| == |j.members|
    requires forall k :: 0 <= k < |lines| ==>
      lines[k] == Spaces(indent) + MemberText(j.members[k].0, pretty) + Dump(j.members[k].1, pretty, step, indent)
    ensures DumpMembers(j, i, pretty, step, indent) == Between(if pretty then ",\n" else ",", lines[i..])
    decreases |lines| - i
  {
    hide Dump, Spaces, MemberText;
    if i + 1 < |lines| {
      MembersBetween(j, i + 1, pretty, step, indent, lines);
      assert lines[i..][1..] == lines[i + 1..];
      var rest := DumpMembers(j, i + 1, pretty, step, indent);
      assert "," + "\n" == ",\n" && "," + "" == ",";
      assert DumpMembers(j, i, pretty, step, indent) == lines[i] + ("," + Break(pretty) + rest);
    } else {
      assert lines[i] + "" == lines[i];
    }
  }

  /** Pretty: each element is on a line of its own, deeper than the brackets by the step. */
  lemma ArrayLines(es: seq<Json>, step: nat, indent: nat, lines: seq<string>)
    requires es != [] && |lines| == |es|
    requires forall k :: 0 <= k < |es| ==>
      lines[k] == Spaces(indent + step) + Dump(es[k], true, step, indent + step)
    ensures Dump(Array(es), true, step, indent)
      == "[\n" + Between(",\n", lines) + ("\n" + Spaces(indent) + "]")
  {
    hide Spaces, Between;
    ElementsBetween(Array(es), 0, true, step, indent + step, lines);
    assert lines[0..] == lines && "[" + "\n" == "[\n";
  }

  lemma ObjectLines(ms: seq<(string, Json)>, step: nat, indent: nat, lines: seq<string>)
    requires ms != [] && |lines| == |ms|
    requires forall k :: 0 <= k < |ms| ==>
      lines[k] == Spaces(indent + step) + ("\"" + Escape(ms[k].0) + "\": ") + Dump(ms[k].1, true, step, indent + step)
    ensures Dump(Object(ms), true, step, indent)
      == "{\n" + Between(",\n", lines) + ("\n" + Spaces(indent) + "}")
  {
    forall k | 0 <= k < |ms|
      ensures lines[k]
        == Spaces(indent + step) + MemberText(ms[k].0, true) + Dump(ms[k].1, true, step, indent + step)
    {
      PrettyMember(ms[k].0);
    }
    hide Spaces, Between, MemberText, Escape;
    MembersBetween(Object(ms), 0, true, step, indent + step, lines);
    assert lines[0..] == lines && "{" + "\n" == "{\n";
  }

  lemma PrettyMember(key: string)
    ensures MemberText(key, true) == "\"" + Escape(key) + "\": "
    ensures MemberText(key, false) == "\"" + Escape(key) + "\":"
  {
    hide Escape;
    assert "\":" + " " == "\": " && "\":" + "" == "\":";
  }

  /** Compact: no white space at all. */
  lemma ArrayOnOneLine(es: seq<Json>, step: nat, texts: seq<string>)
    requires es != [] && |texts| == |es| && forall k :: 0 <= k < |es| ==> texts[k] == Dump(es[k], false, step, 0)
    ensures Dump(Array(es), false, step, 0) == "[" + Between(",", texts) + "]"
  {
    NoSpaces();
    hide Spaces, Between;
    ElementsBetween(Array(es), 0, false, step, 0, texts);
    assert texts[0..] == texts && "[" + "" == "[" && "" + "" + "]" == "]";
  }

  lemma ObjectOnOneLine(ms: seq<(string, Json)>, step: nat, texts: seq<string>)
    requires ms != [] && |texts| == |ms|
    requires forall k :: 0 <= k < |ms| ==>
      texts[k] == "\"" + Escape(ms[k].0) + "\":" + Dump(ms[k].1, false, step, 0)
    ensures Dump(Object(ms), false, step, 0) == "{" + Between(",", texts) + "}"
  {
    NoSpaces();
    forall k | 0 <= k < |ms|
      ensures texts[k] == Spaces(0) + MemberText(ms[k].0, false) + Dump(ms[k].1, false, step, 0)
    {
      PrettyMember(ms[k].0);
    }
    hide Spaces, Between, MemberText, Escape;
    MembersBetween(Object(ms), 0, false, step, 0, texts);
    assert texts[0..] == texts && "{" + "" == "{" && "" + "" + "}" == "}";
  }

  lemma NoSpaces()
    ensures Spaces(0) == ""
  {
  }
}
