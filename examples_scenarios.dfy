/**
 * Concrete scenarios: token sequences as Python's tokenize module produces
 * them for a few lines of source, and the records the checker yields.
 */
module AsciiScenarios {
  import opened Wrappers
  import opened AsciiValidator
  import HexFormat

  /** 'é', U+00E9. */
  const EAcute: char := '\U{E9}'

  /** The codepoint of 'é' is written U+00E9: two zeros pad "E9" to four digits. */
  lemma EAcuteCodepoint()
    ensures CodepointText(EAcute) == "U+00E9"
  {
    assert HexFormat.Hex(0xE9) == "E9" by {
      assert HexFormat.Hex(14) == "E";
    }
    assert HexFormat.Zeros(2) == "00" by {
      assert HexFormat.Zeros(1) == "0";
    }
  }

  /** A codepoint above U+FFFF keeps all five digits: U+1F600. */
  lemma WideCodepoint()
    ensures CodepointText('\U{1F600}') == "U+1F600"
  {
    assert HexFormat.Hex(0x1F600) == "1F600" by {
      assert HexFormat.Hex(0x1F60) == "1F60" by {
        assert HexFormat.Hex(0x1F6) == "1F6" by {
          assert HexFormat.Hex(0x1F) == "1F" by {
            assert HexFormat.Hex(1) == "1";
          }
        }
      }
    }
  }

  /** A comment "# café" at line 1, column 0: one ASC003 record at column 5. */
  lemma CafeComment()
    ensures CheckTokens([Token(Comment, "# caf\U{E9}", 1, 0)])
         == [Violation(1, 5, Message(CommentText, EAcute), AsciiCheckerClass)]
  {
    var t := Token(Comment, "# caf\U{E9}", 1, 0);
    assert IsFirstNonAscii(t.text, 5);
    CheckTokenRecord(t, 5);
    Singleton(t);
  }

  /**
   * The message of that record, in full: the whole ASC003 constant, then the
   * "Non-ASCII character" phrase a second time with the character and its
   * codepoint.
   */
  lemma CafeMessage()
    ensures Message(CommentText, EAcute)
         == "ASC003 Non-ASCII character found in comment"
          + " Non-ASCII character '\U{E9}' (U+00E9) found in comment"
  {
    Asc003Text();
    CafeReport();
  }

  /** The ASC001 class constant, spelled out. */
  lemma Asc001Text()
    ensures ASC001 == "ASC001 Non-ASCII character found in source code"
  {
    assert "ASC001" + Description == "ASC001 Non-ASCII character found in ";
  }

  /** The ASC002 class constant, spelled out. */
  lemma Asc002Text()
    ensures ASC002 == "ASC002 Non-ASCII character found in string literal"
  {
    assert "ASC002" + Description == "ASC002 Non-ASCII character found in ";
  }

  /** The ASC003 class constant, spelled out. */
  lemma Asc003Text()
    ensures ASC003 == "ASC003 Non-ASCII character found in comment"
  {
    assert "ASC003" + Description == "ASC003 Non-ASCII character found in ";
  }

  /** What follows the constant in the message for 'é' in a comment. */
  lemma CafeReport()
    ensures Report(CommentText, EAcute) == " Non-ASCII character '\U{E9}' (U+00E9) found in comment"
  {
    EAcuteCodepoint();
    assert Report(CommentText, EAcute)
        == CharLead + ([EAcute] + (CodepointLead + ("U+00E9" + (LocationLead + "comment"))));
  }

  /**
   * A triple-quoted string that starts at line 2, column 4 and holds a
   * newline before its 'é': the record keeps line 2 and adds the raw index
   * 7 to the column, ignoring the newline.
   */
  lemma MultiLineString()
    ensures CheckToken(Token(String, "\"\"\"ab\nc\U{E9}\"\"\"", 2, 4))
         == [Violation(2, 11, Message(StringLiteral, EAcute), AsciiCheckerClass)]
  {
    var t := Token(String, "\"\"\"ab\nc\U{E9}\"\"\"", 2, 4);
    ExemptPrefixExactly(t.text);
    assert IsFirstNonAscii(t.text, 7);
    CheckTokenRecord(t, 7);
  }

  /** The tokens of the line `variablé = "test"  # é has code point U+00E9`. */
  const NameTok := Token(Other("NAME"), "variabl\U{E9}", 1, 0)
  const OpTok := Token(Other("OP"), "=", 1, 9)
  const StringTok := Token(String, "\"test\"", 1, 11)
  const CommentTok := Token(Comment, "# \U{E9} has code point U+00E9", 1, 19)
  const NewlineTok := Token(Other("NEWLINE"), "", 1, 44)
  const EndTok := Token(Other("ENDMARKER"), "", 2, 0)

  /** The name `variablé` is reported at its 'é', column 7. */
  lemma NameReported()
    ensures CheckTokens([NameTok]) == [Violation(1, 7, Message(SourceCode, EAcute), AsciiCheckerClass)]
  {
    assert IsFirstNonAscii(NameTok.text, 7);
    CheckTokenRecord(NameTok, 7);
    Singleton(NameTok);
  }

  /** The comment is reported at its 'é', column 21. */
  lemma CommentReported()
    ensures CheckTokens([CommentTok]) == [Violation(1, 21, Message(CommentText, EAcute), AsciiCheckerClass)]
  {
    assert IsFirstNonAscii(CommentTok.text, 2);
    CheckTokenRecord(CommentTok, 2);
    Singleton(CommentTok);
  }

  /** `=` and `"test"` are all ASCII; NEWLINE and ENDMARKER are empty. */
  lemma AsciiTokensSilent()
    ensures CheckTokens([OpTok, StringTok]) == []
    ensures CheckTokens([NewlineTok, EndTok]) == []
  {
    assert AllAscii(OpTok.text) && AllAscii(StringTok.text);
    CheckTokensEmpty([OpTok, StringTok]);
    CheckTokensEmpty([NewlineTok, EndTok]);
  }

  /**
   * The whole line: the name and the comment are each reported once, in
   * that order, and nothing else is.
   */
  lemma NameAndComment()
    ensures CheckTokens([NameTok, OpTok, StringTok, CommentTok, NewlineTok, EndTok])
         == [Violation(1, 7, Message(SourceCode, EAcute), AsciiCheckerClass),
             Violation(1, 21, Message(CommentText, EAcute), AsciiCheckerClass)]
  {
    var v1 := Violation(1, 7, Message(SourceCode, EAcute), AsciiCheckerClass);
    var v2 := Violation(1, 21, Message(CommentText, EAcute), AsciiCheckerClass);
    calc {
      CheckTokens([NameTok, OpTok, StringTok, CommentTok, NewlineTok, EndTok]);
      { assert [NameTok, OpTok, StringTok, CommentTok, NewlineTok, EndTok]
            == [NameTok] + [OpTok, StringTok] + [CommentTok] + [NewlineTok, EndTok]; }
      CheckTokens([NameTok] + [OpTok, StringTok] + [CommentTok] + [NewlineTok, EndTok]);
      { FourParts([NameTok], [OpTok, StringTok], [CommentTok], [NewlineTok, EndTok]); }
      CheckTokens([NameTok]) + CheckTokens([OpTok, StringTok]) + CheckTokens([CommentTok]) + CheckTokens([NewlineTok, EndTok]);
      { NameReported(); CommentReported(); AsciiTokensSilent(); }
      [v1] + [] + [v2] + [];
      [v1, v2];
    }
  }

  /** CheckTokens over four consecutive stretches of a token list. */
  lemma FourParts(a: seq<Token>, b: seq<Token>, c: seq<Token>, d: seq<Token>)
    ensures CheckTokens(a + b + c + d) == CheckTokens(a) + CheckTokens(b) + CheckTokens(c) + CheckTokens(d)
  {
    CheckTokensAppend(a + b + c, d);
    CheckTokensAppend(a + b, c);
    CheckTokensAppend(a, b);
  }

  lemma Singleton(t: Token)
    ensures CheckTokens([t]) == CheckToken(t)
  {
    CheckTokensAt([t], 0);
    assert [t][..0] == [] && [t][1..] == [];
  }

  /**
   * Prefixed string literals: r"Héllo" and u"Wørld" are exempt, so are R'…'
   * and B"…"; rb"é", f"é" and a bare quote are not.
   */
  lemma PrefixScenarios()
    ensures CheckToken(Token(String, "r\"H\U{E9}llo\"", 3, 17)) == []
    ensures CheckToken(Token(String, "u\"W\U{F8}rld\"", 4, 21)) == []
    ensures HasExemptPrefix("R'\U{E9}'") && HasExemptPrefix("B\"\U{E9}\"")
    ensures !HasExemptPrefix("rb\"\U{E9}\"") && !HasExemptPrefix("f\"\U{E9}\"") && !HasExemptPrefix("\"")
  {
    ExemptPrefixExactly("r\"H\U{E9}llo\"");
    ExemptPrefixExactly("u\"W\U{F8}rld\"");
    ExemptPrefixExactly("R'\U{E9}'");
    ExemptPrefixExactly("B\"\U{E9}\"");
    ExemptPrefixExactly("rb\"\U{E9}\"");
    ExemptPrefixExactly("f\"\U{E9}\"");
    ExemptPrefixExactly("\"");
  }

  /** The ENCODING token is never reported, whatever its text. */
  lemma EncodingNeverReported(text: string, line: nat, col: nat)
    ensures CheckToken(Token(Encoding, text, line, col)) == []
  {
    CheckTokenReports(Token(Encoding, text, line, col));
  }
}
