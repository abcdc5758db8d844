// The joined text, by what stands after each line's number sign.

module ValeJoinLaws {
  import opened Options
  import opened Text
  import opened ValeJoin

  // A line's body: what follows a leading number sign and one space or tab.
  ghost predicate IsBody(line: Text, body: Text) {
    || (line == body && (line == [] || line[0] != '#' as int))
    || (line == ['#' as int] + body && (body == [] || (body[0] != ' ' as int && body[0] != '\t' as int)))
    || line == ['#' as int, ' ' as int] + body
    || line == ['#' as int, '\t' as int] + body
  }

  lemma BodyExactly(line: Text, body: Text)
    ensures IsBody(line, body) <==> body == line[Pad(line)..]
  {
    if body == line[Pad(line)..] {
      if Pad(line) == 2 {
        assert line == [line[0], line[1]] + line[2..];
      } else if Pad(line) == 1 {
        assert line == [line[0]] + line[1..];
      }
    }
  }

  // Texts one after the other, a space between them once there is any text.
  function JoinTexts(bodies: seq<Text>): Text {
    if bodies == [] then []
    else
      var before := JoinTexts(bodies[..|bodies| - 1]);
      before + (if before == [] then [] else [' ' as int]) + bodies[|bodies| - 1]
  }

  function Units(marks: seq<Mark>): (r: Text)
    ensures |r| == |marks| && forall i :: 0 <= i < |r| ==> r[i] == marks[i].unit
  {
    seq(|marks|, i requires 0 <= i < |marks| => marks[i].unit)
  }

  // The text is that of the bodies.
  lemma {:induction false} JoinedText(entries: seq<Entry>, bodies: seq<Text>)
    requires |entries| == |bodies| && forall i :: 0 <= i < |entries| ==> IsBody(entries[i].line, bodies[i])
    ensures Units(Joined(entries)) == JoinTexts(bodies)
  {
    hide IsBody, Marks, Pad;
    if entries != [] {
      var n := |entries| - 1;
      JoinedText(entries[..n], bodies[..n]);
      var before, body := Joined(entries[..n]), Marks(entries[n]);
      OneBody(entries[n], bodies[n]);
      UnitsAppend(before + Between(before), body);
      UnitsAppend(before, Between(before));
      assert Units(Between(before)) == if before == [] then [] else [' ' as int];
      hide *;
    }
  }

  lemma OneBody(e: Entry, body: Text)
    requires IsBody(e.line, body)
    ensures Units(Marks(e)) == body
  {
    BodyExactly(e.line, body);
    hide IsBody, Pad;
    assert |Units(Marks(e))| == |body|;
  }

  lemma UnitsAppend(a: seq<Mark>, b: seq<Mark>)
    ensures Units(a + b) == Units(a) + Units(b)
  {
  }
}
