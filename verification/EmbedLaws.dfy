// The escaper, character by character.

module EmbedLaws {
  import opened Text
  import opened Embed

  // A backslash and a backtick get a backslash; nothing else does by itself.
  lemma UnitEscaped(c: Unit)
    ensures TsString([c]) == if c == '\\' as int || c == '`' as int then [96, 92, c, 96] else [96, c, 96]
  {
    OnePass([c]);
    assert [c][1..] == [];
    assert Escaped([]) == [];
    hide ThreeReplacements, ReplaceAll;
    assert !StartsWith([c], OPEN_SUBSTITUTION);
    assert Escaped([c]) == if c == 92 || c == 96 then [92, c] else [c];
  }

  // A dollar sign does before a brace, and only there.
  lemma DollarEscaped(c: Unit)
    requires c != '\\' as int && c != '`' as int
    ensures TsString(['$' as int, c]) == if c == '{' as int then [96, 92, 36, 123, 96] else [96, 36, c, 96]
  {
    var s: Text := [36, c];
    OnePass(s);
    hide ThreeReplacements, ReplaceAll;
    assert s[1..] == [c] && s[2..] == [] && s[..2] == s && [c][1..] == [];
    assert Escaped([]) == [];
    assert !StartsWith([c], OPEN_SUBSTITUTION);
    assert Escaped([c]) == [c];
    assert StartsWith(s, OPEN_SUBSTITUTION) <==> c == 123;
  }
}
