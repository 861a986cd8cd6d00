/** The language of requests, stated without reference to the state machine.

    A `Message` is a derivation: the pieces of text that a request line, header lines with
    folded continuation lines, and a body are made of. It is section 5 of RFC 2616 as
    src/request_parser.cpp reads it: exactly one space after the colon, no control
    character (so no TAB) in a value, any uri without space and control characters. */
module Grammar {
  import opened Text
  import opened Http
  import opened RequestParser

  /** A continuation line: white space, then text. */
  datatype Fold = Fold(lead: string, text: string)

  datatype Field = Field(name: string, value: string, folds: seq<Fold>)

  datatype Message = Message(
    method_: string, uri: string, major: string, minor: string, fields: seq<Field>, body: string)

  predicate TokenChars(s: string) {
    forall i | 0 <= i < |s| :: IsTokenChar(s[i])
  }

  predicate IsToken(s: string) {
    s != "" && TokenChars(s)
  }

  predicate IsText(s: string) {
    forall i | 0 <= i < |s| :: !IsCtl(s[i])
  }

  predicate IsUri(s: string) {
    forall i | 0 <= i < |s| :: s[i] != ' ' && !IsCtl(s[i])
  }

  predicate Blanks(s: string) {
    forall i | 0 <= i < |s| :: s[i] == ' ' || s[i] == '\t'
  }

  predicate IsNumeral(s: string) {
    s != "" && IsDigits(s)
  }

  predicate ValidFold(f: Fold) {
    f.lead != "" && Blanks(f.lead) && IsText(f.text) && (f.text != "" ==> f.text[0] != ' ')
  }

  predicate ValidFolds(fs: seq<Fold>) {
    forall i | 0 <= i < |fs| :: ValidFold(fs[i])
  }

  predicate ValidField(f: Field) {
    IsToken(f.name) && IsText(f.value) && ValidFolds(f.folds)
  }

  predicate ValidFields(fs: seq<Field>) {
    forall i | 0 <= i < |fs| :: ValidField(fs[i])
  }

  /** The text of a field up to its last line break. */
  function OpenField(f: Field): string
    decreases |f.folds|
  {
    var n := |f.folds|;
    if n == 0 then f.name + ": " + f.value
    else OpenField(f.(folds := f.folds[..n - 1])) + "\r\n" + f.folds[n - 1].lead + f.folds[n - 1].text
  }

  function FieldText(f: Field): string {
    OpenField(f) + "\r\n"
  }

  function FieldsText(fs: seq<Field>): string {
    if fs == [] then "" else FieldsText(fs[..|fs| - 1]) + FieldText(fs[|fs| - 1])
  }

  function RequestLine(method_: string, uri: string, major: string, minor: string): string {
    method_ + " " + uri + " HTTP/" + major + "." + minor + "\r\n"
  }

  /** The request line and the header lines. */
  function LinesText(m: Message): string {
    RequestLine(m.method_, m.uri, m.major, m.minor) + FieldsText(m.fields)
  }

  /** The text of a message. */
  function MessageText(m: Message): string {
    LinesText(m) + "\r\n" + m.body
  }

  /** The value of a field: the continuation texts are appended with nothing in between. */
  function FieldValue(f: Field): string
    decreases |f.folds|
  {
    var n := |f.folds|;
    if n == 0 then f.value else FieldValue(f.(folds := f.folds[..n - 1])) + f.folds[n - 1].text
  }

  function FieldHeader(f: Field): Header {
    Header(Lower(f.name), FieldValue(f))
  }

  function Headers(fs: seq<Field>): (hs: seq<Header>)
    ensures |hs| == |fs|
  {
    if fs == [] then [] else Headers(fs[..|fs| - 1]) + [FieldHeader(fs[|fs| - 1])]
  }

  /** The length of the body that the headers announce; 0 for no body. */
  function BodyLength(hs: seq<Header>): nat {
    var n := ContentLength(hs);
    if n < 0 then 0 else n
  }

  predicate ValidMessage(m: Message) {
    && IsToken(m.method_) && IsUri(m.uri) && IsNumeral(m.major) && IsNumeral(m.minor)
    && ValidFields(m.fields)
    && |m.body| == BodyLength(Headers(m.fields)) <= MAX_CONTENT
  }

  /** The request that a message stands for. */
  function Denote(m: Message): RequestValue {
    RequestValue(m.method_, m.uri, DecimalValue(m.major), DecimalValue(m.minor), Headers(m.fields), m.body)
  }

  lemma FieldsTextLast(fs: seq<Field>)
    requires fs != []
    ensures var n := |fs| - 1;
            && FieldsText(fs) == FieldsText(fs[..n]) + FieldText(fs[n])
            && Headers(fs) == Headers(fs[..n]) + [FieldHeader(fs[n])]
  {
  }

  lemma FieldsTextAppend(fs: seq<Field>, f: Field)
    ensures FieldsText(fs + [f]) == FieldsText(fs) + FieldText(f)
    ensures Headers(fs + [f]) == Headers(fs) + [FieldHeader(f)]
  {
    assert (fs + [f])[..|fs|] == fs;
  }
}
