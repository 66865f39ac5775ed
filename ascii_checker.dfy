/**
 * The flake8 plugin `AsciiChecker`: it receives the tokens of one Python
 * source file and reports, for each token, the first character whose
 * codepoint is above 127, as a `(line, col, message, checker)` record.
 *
 * Comments are reported as ASC003, string literals as ASC002 (unless they
 * begin with one of the two-character prefixes r" r' u" u' b" b', in any
 * case), every other token as ASC001, except the ENCODING token, which is
 * never reported. The generator of the original is modelled as the eagerly
 * built sequence of the records it yields, in order.
 */
module AsciiValidator {
  import opened Wrappers
  import HexFormat
  import Sequences

  // ---------------------------------------------------------------------
  // Plugin identity and message constants
  // ---------------------------------------------------------------------

  /** The checker class, as flake8 sees it: its `name` and `version`. */
  datatype CheckerClass = CheckerClass(name: string, version: string)

  /** `type(self)`, the fourth field of every record. */
  const AsciiCheckerClass := CheckerClass("flake8-ascii-validator", "1.0.2")

  /** The words the three class constants share after their code. */
  const Description := " Non-ASCII character found in "

  /** "ASC001 Non-ASCII character found in source code" */
  const ASC001 := "ASC001" + Description + "source code"
  /** "ASC002 Non-ASCII character found in string literal" */
  const ASC002 := "ASC002" + Description + "string literal"
  /** "ASC003 Non-ASCII character found in comment" */
  const ASC003 := "ASC003" + Description + "comment"

  // ---------------------------------------------------------------------
  // Tokens and violations
  // ---------------------------------------------------------------------

  /**
   * The `type` of a token from Python's tokenize module. Only COMMENT,
   * STRING and ENCODING are told apart by the checker; every other tag
   * (NAME, OP, NUMBER, NEWLINE, FSTRING_MIDDLE, ...) is `Other`. The tag of
   * `Other` is never "COMMENT", "STRING" or "ENCODING": tokens of those types
   * are written with their own constructors.
   */
  datatype TokenType = Comment | String | Encoding | Other(tag: string)

  /** A token: its type, its text and the (line, column) where it starts. */
  datatype Token = Token(kind: TokenType, text: string, startLine: nat, startCol: nat)

  /** One yielded record: `(line, col, message, checker class)`. */
  datatype Violation = Violation(line: nat, col: nat, message: string, origin: CheckerClass)

  /** The three scans, one per reported category. */
  datatype Scan = SourceCode | StringLiteral | CommentText

  /** The class constant each scan interpolates at the head of its message. */
  function CodeConstant(scan: Scan): string {
    match scan
    case SourceCode => ASC001
    case StringLiteral => ASC002
    case CommentText => ASC003
  }

  /** The six-character code that begins each constant. */
  function Code(scan: Scan): string {
    match scan
    case SourceCode => "ASC001"
    case StringLiteral => "ASC002"
    case CommentText => "ASC003"
  }

  /** The words that end each scan's message. */
  function Location(scan: Scan): string {
    match scan
    case SourceCode => "source code"
    case StringLiteral => "string literal"
    case CommentText => "comment"
  }

  /** Each class constant begins with its code. */
  lemma CodeConstantStartsWithCode(scan: Scan)
    ensures |CodeConstant(scan)| > 6 && CodeConstant(scan)[..6] == Code(scan)
  {
    var head := Code(scan) + Description;
    assert CodeConstant(scan) == head + Location(scan);
    Sequences.SplitAppend(head, Location(scan));
    Sequences.SplitAppend(Code(scan), Description);
    Sequences.TakeTake(CodeConstant(scan), 6, |head|);
  }

  // ---------------------------------------------------------------------
  // Messages
  // ---------------------------------------------------------------------

  const CharLead := " Non-ASCII character '"
  const CodepointLead := "' ("
  const LocationLead := ") found in "

  /** "U+" and the codepoint of c as `04X` formats it: "U+00E9" for 'é'. */
  function CodepointText(c: char): string {
    "U+" + HexFormat.Format04X(c as nat)
  }

  /**
   * The f-string of each scan,
   *   f"{CONSTANT} Non-ASCII character '{char}' (U+{ord(char):04X}) found in {location}",
   * which interpolates the WHOLE class constant, so that the phrase
   * "Non-ASCII character ... found in ..." appears twice: "ASC003 Non-ASCII
   * character found in comment Non-ASCII character 'é' (U+00E9) found in
   * comment". The parts are grouped from the right.
   */
  function Message(scan: Scan, c: char): string {
    CodeConstant(scan) + Report(scan, c)
  }

  /** The part of a message after the class constant. */
  function Report(scan: Scan, c: char): string {
    CharLead + ([c] + (CodepointLead + (CodepointText(c) + (LocationLead + Location(scan)))))
  }

  /** Python's `w in s` on strings. */
  ghost predicate Contains(s: string, w: string) {
    exists k :: Sequences.OccursAt(s, w, k)
  }

  /** Every message starts with its scan's code, hence with "ASC00". */
  lemma MessageCode(scan: Scan, c: char)
    ensures Code(scan) <= Message(scan, c)
    ensures "ASC00" <= Message(scan, c)
  {
    var m := Message(scan, c);
    var k := CodeConstant(scan);
    var rest := Report(scan, c);
    CodeConstantStartsWithCode(scan);
    Sequences.SplitAppend(k, rest);
    Sequences.TakeTake(m, 6, |k|);
    Sequences.TakeTake(m, 5, 6);
    assert Code(scan)[..5] == "ASC00";
  }

  /** Every message holds "U+" followed by the character's codepoint. */
  lemma MessageCodepoint(scan: Scan, c: char)
    ensures Contains(Message(scan, c), CodepointText(c))
    ensures Contains(Message(scan, c), "U+")
  {
    var w := CodepointText(c);
    var tail := LocationLead + Location(scan);
    var at := |CharLead| + 1 + |CodepointLead|;
    Sequences.OccursInMiddle(CodepointLead, w, tail);
    Sequences.OccursShift([c], CodepointLead + (w + tail), w, |CodepointLead|);
    Sequences.OccursShift(CharLead, [c] + (CodepointLead + (w + tail)), w, 1 + |CodepointLead|);
    assert Sequences.OccursAt(Report(scan, c), w, at);
    var k := CodeConstant(scan);
    Sequences.OccursShift(k, Report(scan, c), w, at);
    Sequences.OccursPrefix(Message(scan, c), w, |k| + at, 2);
    Sequences.SplitAppend("U+", HexFormat.Format04X(c as nat));
  }

  /**
   * The shape the tests look for: a message starts with "ASC00" and holds
   * "U+" followed by the codepoint.
   */
  lemma MessageShape(scan: Scan, c: char)
    ensures "ASC00" <= Message(scan, c)
    ensures Contains(Message(scan, c), CodepointText(c)) && Contains(Message(scan, c), "U+")
  {
    MessageCode(scan, c);
    MessageCodepoint(scan, c);
  }

  /** What a message names: the scan that produced it and the character. */
  datatype Decoded = Decoded(scan: Scan, character: char)

  function ScanOfCode(code: string): Option<Scan> {
    if code == "ASC001" then Some(SourceCode)
    else if code == "ASC002" then Some(StringLiteral)
    else if code == "ASC003" then Some(CommentText)
    else None
  }

  /**
   * Reads a message back: the scan from its code, then the class constant,
   * the character, and a check that the "U+" numeral (at least four
   * uppercase digits) is that character's codepoint and that the location
   * words agree with the code.
   */
  function ParseMessage(m: string): Option<Decoded> {
    if |m| < 6 then None
    else match ScanOfCode(m[..6])
      case None => None
      case Some(scan) =>
        match Sequences.DropPrefix(CodeConstant(scan), m)
        case None => None
        case Some(r) => ParseReport(scan, r)
  }

  /** The part of a message after the class constant: the quoted character. */
  function ParseReport(scan: Scan, r: string): Option<Decoded> {
    match Sequences.DropPrefix(CharLead, r)
    case None => None
    case Some(r1) => if r1 == [] then None else ParseCodepoint(scan, r1[0], r1[1..])
  }

  /** After the character: the lead-in of the codepoint. */
  function ParseCodepoint(scan: Scan, c: char, r: string): Option<Decoded> {
    match Sequences.DropPrefix(CodepointLead, r)
    case None => None
    case Some(r2) => ParseDigits(scan, c, r2)
  }

  /** "U+", at least four upper-case digits worth c, then the location words. */
  function ParseDigits(scan: Scan, c: char, r: string): Option<Decoded> {
    match Sequences.DropPrefix("U+", r)
    case None => None
    case Some(r3) =>
      match Sequences.DropSuffix(LocationLead + Location(scan), r3)
      case None => None
      case Some(digits) =>
        if |digits| >= 4 && HexFormat.IsUpperHexNumeral(digits) && HexFormat.Value(digits) == c as int
        then Some(Decoded(scan, c))
        else None
  }

  lemma ScanOfCodeInverse(scan: Scan)
    ensures ScanOfCode(Code(scan)) == Some(scan)
  {
  }

  /** Every message reads back as the scan and the character it was built from. */
  lemma MessageRoundTrip(scan: Scan, c: char)
    ensures ParseMessage(Message(scan, c)) == Some(Decoded(scan, c))
  {
    ParseAfterConstant(scan, Report(scan, c));
    ReportRoundTrip(scan, c);
  }

  /** The code at the head of a message selects the scan whose report is read. */
  lemma ParseAfterConstant(scan: Scan, r: string)
    ensures ParseMessage(CodeConstant(scan) + r) == ParseReport(scan, r)
  {
    var k := CodeConstant(scan);
    CodeConstantStartsWithCode(scan);
    Sequences.TakeTake(k + r, 6, |k|);
    Sequences.SplitAppend(k, r);
    ScanOfCodeInverse(scan);
    Sequences.DropPrefixAppend(k, r);
  }

  lemma ReportRoundTrip(scan: Scan, c: char)
    ensures ParseReport(scan, Report(scan, c)) == Some(Decoded(scan, c))
  {
    var tail := LocationLead + Location(scan);
    var rest := CodepointLead + (CodepointText(c) + tail);
    ParseAfterCharacter(scan, c, rest);
    ParseAfterCodepointLead(scan, c, CodepointText(c) + tail);
    DigitsRoundTrip(scan, c);
  }

  lemma ParseAfterCharacter(scan: Scan, c: char, rest: string)
    ensures ParseReport(scan, CharLead + ([c] + rest)) == ParseCodepoint(scan, c, rest)
  {
    Sequences.DropPrefixAppend(CharLead, [c] + rest);
    assert ([c] + rest)[1..] == rest;
  }

  lemma ParseAfterCodepointLead(scan: Scan, c: char, rest: string)
    ensures ParseCodepoint(scan, c, CodepointLead + rest) == ParseDigits(scan, c, rest)
  {
    Sequences.DropPrefixAppend(CodepointLead, rest);
  }

  lemma DigitsRoundTrip(scan: Scan, c: char)
    ensures ParseDigits(scan, c, CodepointText(c) + (LocationLead + Location(scan))) == Some(Decoded(scan, c))
  {
    var digits := HexFormat.Format04X(c as nat);
    var tail := LocationLead + Location(scan);
    assert CodepointText(c) + tail == "U+" + (digits + tail);
    Sequences.DropPrefixAppend("U+", digits + tail);
    Sequences.DropSuffixAppend(tail, digits);
    HexFormat.Format04XSpec(c as nat);
  }

  // ---------------------------------------------------------------------
  // The character scan
  // ---------------------------------------------------------------------

  /** `ord(char) > 127` is false. */
  predicate IsAscii(c: char) {
    c as int <= 127
  }

  predicate AllAscii(s: string) {
    forall i | 0 <= i < |s| :: IsAscii(s[i])
  }

  /** i is the lowest index of a character above 127. */
  predicate IsFirstNonAscii(s: string, i: int) {
    0 <= i < |s| && !IsAscii(s[i]) && forall j | 0 <= j < i :: IsAscii(s[j])
  }

  /** The `for i, char in enumerate(text): if ord(char) > 127: ... break` search. */
  function FirstNonAscii(s: string): (r: Option<nat>)
    ensures r.None? <==> AllAscii(s)
    ensures r.Some? ==> IsFirstNonAscii(s, r.value)
  {
    if s == [] then None
    else if !IsAscii(s[0]) then Some(0)
    else
      match FirstNonAscii(s[1..])
      case None => None
      case Some(k) => Some(k + 1)
  }

  /** There is only one first non-ASCII index. */
  lemma FirstNonAsciiUnique(s: string, i: int, j: int)
    requires IsFirstNonAscii(s, i) && IsFirstNonAscii(s, j)
    ensures i == j
  {
  }

  /**
   * One scan of one token: nothing if the text is all ASCII, otherwise one
   * record for the first character above 127, at the token's start line and
   * at start column plus the raw index. The line is never advanced over a
   * newline inside the token.
   */
  function ScanText(scan: Scan, t: Token): (vs: seq<Violation>)
    ensures |vs| <= 1
    ensures vs == [] <==> AllAscii(t.text)
    ensures vs != [] ==> ReportsFirst(scan, t, vs[0])
  {
    match FirstNonAscii(t.text)
    case None => []
    case Some(i) => [Violation(t.startLine, t.startCol + i, Message(scan, t.text[i]), AsciiCheckerClass)]
  }

  /** v reports t's first non-ASCII character, as the given scan words it. */
  predicate ReportsFirst(scan: Scan, t: Token, v: Violation) {
    && v.line == t.startLine
    && v.col >= t.startCol
    && IsFirstNonAscii(t.text, v.col - t.startCol)
    && v.message == Message(scan, t.text[v.col - t.startCol])
    && v.origin == AsciiCheckerClass
  }

  // ---------------------------------------------------------------------
  // The three handlers
  // ---------------------------------------------------------------------

  /** `_check_comment`. */
  function CheckComment(t: Token): seq<Violation> {
    ScanText(CommentText, t)
  }

  /** The prefixes that exempt a string token, compared with its lowercased text. */
  const ExemptPrefixes: seq<string> := ["r\"", "r'", "u\"", "u'", "b\"", "b'"]

  function LowerChar(c: char): char {
    if 'A' <= c <= 'Z' then (c as int - 'A' as int + 'a' as int) as char else c
  }

  /** `str.lower()`, on the letters A to Z. */
  function Lower(s: string): (r: string)
    ensures |r| == |s|
  {
    seq(|s|, i requires 0 <= i < |s| => LowerChar(s[i]))
  }

  /** `text.lower().startswith(('r"', "r'", 'u"', "u'", 'b"', "b'"))`. */
  predicate HasExemptPrefix(text: string) {
    exists p | p in ExemptPrefixes :: p <= Lower(text)
  }

  /**
   * The exemption looks at exactly two characters: a letter r, u or b in
   * either case, then a quote. A combined prefix such as rb"..." or an
   * f-string is not exempt.
   */
  lemma ExemptPrefixExactly(text: string)
    ensures HasExemptPrefix(text) <==>
      |text| >= 2 && text[0] in "rRuUbB" && text[1] in "\"'"
  {
    var low := Lower(text);
    if |text| >= 2 && text[0] in "rRuUbB" && text[1] in "\"'" {
      var p := low[..2];
      assert p == [LowerChar(text[0]), text[1]];
      assert p in ExemptPrefixes;
    }
    if HasExemptPrefix(text) {
      var p :| p in ExemptPrefixes && p <= low;
      assert |p| == 2 && p[0] in "rub" && p[1] in "\"'";
      assert low[0] == p[0] && low[1] == p[1];
    }
  }

  /** `_check_string_token`. */
  function CheckStringToken(t: Token): seq<Violation> {
    if HasExemptPrefix(t.text) then [] else ScanText(StringLiteral, t)
  }

  /** `skip_types` of `_check_general_token`. */
  const SkipTypes: set<TokenType> := {String, Comment, Encoding}

  /** `_check_general_token`. */
  function CheckGeneralToken(t: Token): seq<Violation> {
    if t.kind in SkipTypes then [] else ScanText(SourceCode, t)
  }

  // ---------------------------------------------------------------------
  // Dispatch
  // ---------------------------------------------------------------------

  /** The scan each token type is reported under (ENCODING is never reported). */
  function ScanOf(kind: TokenType): Scan {
    match kind
    case Comment => CommentText
    case String => StringLiteral
    case Encoding => SourceCode
    case Other(_) => SourceCode
  }

  /** Tokens that are never reported, whatever their text. */
  predicate Exempt(t: Token) {
    t.kind == Encoding || (t.kind == String && HasExemptPrefix(t.text))
  }

  /** Tokens that produce a record. */
  predicate Flagged(t: Token) {
    !Exempt(t) && !AllAscii(t.text)
  }

  /** The body of the loop in `_check_tokens`: the dispatch on the token's type. */
  function CheckToken(t: Token): (vs: seq<Violation>)
    ensures |vs| <= 1
  {
    match t.kind
    case Comment => CheckComment(t)
    case String => CheckStringToken(t)
    case _ => CheckGeneralToken(t)
  }

  /**
   * A token yields a record exactly when it is flagged, and that record
   * reports its first non-ASCII character under the scan of its type:
   * COMMENT to the comment scan, STRING to the string scan, everything else
   * to the general scan.
   */
  lemma CheckTokenReports(t: Token)
    ensures CheckToken(t) != [] <==> Flagged(t)
    ensures CheckToken(t) != [] ==> ReportsFirst(ScanOf(t.kind), t, CheckToken(t)[0])
  {
  }

  /**
   * The record of a flagged token, written out: at the token's start line,
   * at its start column plus the index of its first non-ASCII character,
   * naming that character under the scan of the token's type.
   */
  lemma CheckTokenRecord(t: Token, i: nat)
    requires !Exempt(t) && IsFirstNonAscii(t.text, i)
    ensures CheckToken(t) == [Violation(t.startLine, t.startCol + i, Message(ScanOf(t.kind), t.text[i]), AsciiCheckerClass)]
  {
    CheckTokenScans(t);
    ScanTextRecord(ScanOf(t.kind), t, i);
  }

  /** One scan of a text whose first non-ASCII character is at index i. */
  lemma ScanTextRecord(scan: Scan, t: Token, i: nat)
    requires IsFirstNonAscii(t.text, i)
    ensures ScanText(scan, t) == [Violation(t.startLine, t.startCol + i, Message(scan, t.text[i]), AsciiCheckerClass)]
  {
    var r := FirstNonAscii(t.text);
    FirstNonAsciiUnique(t.text, i, r.value);
    match r
    case Some(j) =>
      assert j == i;
  }

  /** A token that is not exempt gets the scan of its type. */
  lemma CheckTokenScans(t: Token)
    requires !Exempt(t)
    ensures CheckToken(t) == ScanText(ScanOf(t.kind), t)
  {
  }

  /** Exempt and all-ASCII tokens yield nothing. */
  lemma CheckTokenSilent(t: Token)
    requires Exempt(t) || AllAscii(t.text)
    ensures CheckToken(t) == []
  {
    CheckTokenReports(t);
  }

  /**
   * STRING and COMMENT in `skip_types` are never reached: the general scan
   * only ever receives the other types, and of those it skips ENCODING alone.
   */
  lemma SkipTypesReachable(t: Token)
    requires t.kind != Comment && t.kind != String
    ensures CheckToken(t) == CheckGeneralToken(t)
    ensures t.kind in SkipTypes <==> t.kind == Encoding
  {
  }

  /**
   * Category correctness: the code at the head of every record is ASC003 for a
   * COMMENT, ASC002 for a STRING and ASC001 for any other type.
   */
  lemma DispatchCode(t: Token)
    ensures forall v | v in CheckToken(t) :: Code(ScanOf(t.kind)) <= v.message
    ensures t.kind == Comment ==> forall v | v in CheckToken(t) :: "ASC003" <= v.message
    ensures t.kind == String ==> forall v | v in CheckToken(t) :: "ASC002" <= v.message
    ensures t.kind.Other? ==> forall v | v in CheckToken(t) :: "ASC001" <= v.message
    ensures t.kind == Encoding ==> CheckToken(t) == []
  {
    var vs := CheckToken(t);
    if vs != [] {
      CheckTokenReports(t);
      MessageCode(ScanOf(t.kind), t.text[vs[0].col - t.startCol]);
    }
  }

  /** `_check_tokens`: each token's records, in the order of the tokens. */
  function CheckTokens(ts: seq<Token>): (vs: seq<Violation>)
    ensures |vs| <= |ts|
  {
    Sequences.FlatMapLength(CheckToken, ts);
    Sequences.FlatMap(CheckToken, ts)
  }

  /** The records of a concatenation are the concatenation of the records. */
  lemma CheckTokensAppend(a: seq<Token>, b: seq<Token>)
    ensures CheckTokens(a + b) == CheckTokens(a) + CheckTokens(b)
  {
    Sequences.FlatMapAppend(CheckToken, a, b);
  }

  /**
   * Order preservation: the records of the j-th token stand after those of
   * every earlier token and before those of every later one.
   */
  lemma CheckTokensAt(ts: seq<Token>, j: nat)
    requires j < |ts|
    ensures CheckTokens(ts) == CheckTokens(ts[..j]) + CheckToken(ts[j]) + CheckTokens(ts[j + 1..])
  {
    var rest := [ts[j]] + ts[j + 1..];
    assert ts == ts[..j] + rest;
    CheckTokensAppend(ts[..j], rest);
    CheckTokensAppend([ts[j]], ts[j + 1..]);
    assert CheckTokens([ts[j]]) == CheckToken(ts[j]) by {
      assert [ts[j]][1..] == [];
    }
  }

  /** No record at all exactly when no token is flagged. */
  lemma CheckTokensEmpty(ts: seq<Token>)
    ensures CheckTokens(ts) == [] <==> forall t | t in ts :: !Flagged(t)
  {
    Sequences.FlatMapEmpty(CheckToken, ts);
    forall t | t in ts {
      CheckTokenReports(t);
    }
  }

  /**
   * Every record is the one record of some token of the input (which,
   * by CheckTokenReports, is flagged and reported at its first non-ASCII
   * character).
   */
  lemma CheckTokensSound(ts: seq<Token>, v: Violation)
    requires v in CheckTokens(ts)
    ensures exists t | t in ts :: CheckToken(t) == [v]
  {
    Sequences.FlatMapMemberSingleton(CheckToken, ts, v);
  }

  /** What the tests ask of a token's record: a code "ASC00..", a "U+" numeral, this checker. */
  lemma TokenRecordShape(t: Token)
    ensures forall v | v in CheckToken(t) ::
      "ASC00" <= v.message && Contains(v.message, "U+") && v.origin == AsciiCheckerClass
  {
    var vs := CheckToken(t);
    CheckTokenReports(t);
    if vs != [] {
      var v := vs[0];
      assert ReportsFirst(ScanOf(t.kind), t, v);
      var c := t.text[v.col - t.startCol];
      assert v.message == Message(ScanOf(t.kind), c);
      MessageShape(ScanOf(t.kind), c);
      assert vs == [v];
    }
  }

  /** What the tests ask of every record of a run. */
  lemma RecordShape(ts: seq<Token>, v: Violation)
    requires v in CheckTokens(ts)
    ensures "ASC00" <= v.message
    ensures Contains(v.message, "U+")
    ensures v.origin == AsciiCheckerClass
  {
    CheckTokensSound(ts, v);
    var t :| t in ts && CheckToken(t) == [v];
    TokenRecordShape(t);
    assert v in CheckToken(t);
  }

  // ---------------------------------------------------------------------
  // The checker object and its factory
  // ---------------------------------------------------------------------

  /**
   * An `AsciiChecker` instance: the tokens and the file name stored by the
   * constructor, never changed afterwards.
   */
  datatype AsciiChecker = AsciiChecker(fileTokens: seq<Token>, filename: string)

  /**
   * `AsciiChecker(tree, file_tokens=None, filename="<unknown>")`. The tree is
   * accepted and ignored; absent tokens (`None`, or `[]`) are stored as `[]`.
   */
  function NewChecker<Tree>(tree: Tree, fileTokens: Option<seq<Token>> := None,
                            filename: string := "<unknown>"): (c: AsciiChecker)
    ensures c.filename == filename
    ensures fileTokens.None? ==> c.fileTokens == []
    ensures fileTokens.Some? ==> c.fileTokens == fileTokens.value
  {
    AsciiChecker(if fileTokens.Some? then fileTokens.value else [], filename)
  }

  /** `run()`: the records `_check_tokens` yields, in order. */
  function Run(c: AsciiChecker): (vs: seq<Violation>)
    ensures |vs| <= |c.fileTokens|
    ensures vs == [] <==> forall t | t in c.fileTokens :: !Flagged(t)
  {
    CheckTokensEmpty(c.fileTokens);
    CheckTokens(c.fileTokens)
  }

  /**
   * `ascii_checker_factory(tree, filename, file_tokens=None)`: the same checker
   * as the constructor, whose last two parameters come in the other order.
   */
  function AsciiCheckerFactory<Tree>(tree: Tree, filename: string,
                                     fileTokens: Option<seq<Token>> := None): (c: AsciiChecker)
    ensures c.filename == filename
    ensures fileTokens.None? ==> c.fileTokens == []
    ensures fileTokens.Some? ==> c.fileTokens == fileTokens.value
  {
    NewChecker(tree, fileTokens, filename)
  }

  /** A checker built without tokens, or with an empty list, reports nothing. */
  lemma NoTokensNoRecords<Tree>(tree: Tree, filename: string)
    ensures Run(NewChecker(tree, None, filename)) == []
    ensures Run(NewChecker(tree, Some([]), filename)) == []
  {
  }

  /** ASCII-clean input yields no record. */
  lemma AsciiTokensNoRecords(ts: seq<Token>)
    requires forall t | t in ts :: AllAscii(t.text)
    ensures CheckTokens(ts) == []
  {
    CheckTokensEmpty(ts);
  }
}
