/** `_parse_multipart`: the Content-Type gate, the scan of each part's
    Content-Disposition for `name=` and `filename=`, and the field map built
    from the parts. Byte-level decoding of the body is done by a library and
    the model starts from its outcome. */
module Multipart {
  import opened Wrappers
  import opened Values
  import opened Text
  import opened PyDict

  /** One decoded part: its Content-Disposition header as text ("" when the
      header is absent) and its raw content. */
  datatype DecodedPart = DecodedPart(disposition: string, content: Bytes)

  /** What the multipart decoder makes of the body: its parts, or the message
      of the error it raises. */
  datatype Body = Decoded(parts: seq<DecodedPart>) | Undecodable(message: string)

  /** The request as this function sees it. Header lookup is case-insensitive,
      so `Content-Type` and `content-type` name the same value. */
  datatype Request = Request(contentType: Option<string>, body: Body)

  /** The value stored for a field: `{"filename": ..., "content": ...}`. */
  datatype FilePart = FilePart(filename: Option<string>, content: Bytes)

  type Files = Dict<string, FilePart>

  const FormData := "multipart/form-data"
  const ContentTypeError := "Content-Type must be multipart/form-data"
  const NameKey := "name="
  const FilenameKey := "filename="

  /** The gate at the top: a present, non-empty header containing
      `multipart/form-data`, compared case-sensitively. */
  predicate AcceptsContentType(ctype: Option<string>) {
    ctype.Some? && ctype.value != "" && Contains(ctype.value, FormData)
  }

  /** A parameter key: text ending in its only `=`. */
  predicate IsKey(key: string) {
    |key| > 0 && key[|key| - 1] == '=' && '=' !in key[..|key| - 1]
  }

  /** The value carried by a stripped token that starts with `key`:
      `token.split("=", 1)[1].strip('"')`. */
  function ParamValue(token: string, key: string): string
    requires IsKey(key) && StartsWith(token, key)
  {
    AfterFirstPrefix(token, key, '=');
    StripQuotes(AfterFirst(token, '='))
  }

  /** Reference definition of the scan: the value of the last `;`-token that,
      once stripped, starts with `key`; `None` when no token does. */
  function LastParam(tokens: seq<string>, key: string): Option<string>
    requires IsKey(key)
    decreases |tokens|
  {
    if tokens == [] then None
    else
      var t := Strip(tokens[|tokens| - 1]);
      if StartsWith(t, key) then Some(ParamValue(t, key))
      else LastParam(tokens[..|tokens| - 1], key)
  }

  /** One more token scanned: it takes over when it carries `key`. */
  lemma LastParamStep(tokens: seq<string>, i: int, key: string)
    requires IsKey(key) && 0 <= i < |tokens|
    ensures var t := Strip(tokens[i]);
      LastParam(tokens[..i + 1], key)
        == if StartsWith(t, key) then Some(ParamValue(t, key)) else LastParam(tokens[..i], key)
  {
    assert tokens[..i + 1][..i] == tokens[..i];
  }

  /** The loop over `cd.split(";")`: each stripped token that starts with
      `name=` or `filename=` reassigns that variable. */
  method ScanDisposition(cd: string) returns (name: Option<string>, filename: Option<string>)
    ensures name == LastParam(Split(cd, ';'), NameKey)
    ensures filename == LastParam(Split(cd, ';'), FilenameKey)
  {
    var tokens := Split(cd, ';');
    name, filename := None, None;
    var i := 0;
    while i < |tokens|
      invariant 0 <= i <= |tokens|
      invariant name == LastParam(tokens[..i], NameKey)
      invariant filename == LastParam(tokens[..i], FilenameKey)
    {
      var token := Strip(tokens[i]);
      LastParamStep(tokens, i, NameKey);
      LastParamStep(tokens, i, FilenameKey);
      if StartsWith(token, NameKey) {
        name := Some(ParamValue(token, NameKey));
      }
      if StartsWith(token, FilenameKey) {
        filename := Some(ParamValue(token, FilenameKey));
      }
      i := i + 1;
    }
    assert tokens[..i] == tokens;
  }

  /** The name a part is filed under, if any: a non-empty `name=` value. */
  function PartName(p: DecodedPart): Option<string> {
    match LastParam(Split(p.disposition, ';'), NameKey)
    case Some(n) => if n != "" then Some(n) else None
    case None => None
  }

  function PartEntry(p: DecodedPart): FilePart {
    FilePart(LastParam(Split(p.disposition, ';'), FilenameKey), p.content)
  }

  /** The items `files[name] = ...` assigns, in part order. */
  function NamedItems(parts: seq<DecodedPart>): (items: seq<(string, FilePart)>)
    decreases |parts|
  {
    if parts == [] then []
    else
      var n := |parts| - 1;
      match PartName(parts[n])
      case Some(k) => NamedItems(parts[..n]) + [(k, PartEntry(parts[n]))]
      case None => NamedItems(parts[..n])
  }

  /** The field map a sequence of parts produces. */
  function FieldMap(parts: seq<DecodedPart>): Files {
    FromItems(NamedItems(parts))
  }

  /** One more part, with the `name` and `filename` its scan found: its
      item, when the name is non-empty, goes into the map. */
  lemma FieldMapStep(parts: seq<DecodedPart>, i: int, name: Option<string>, filename: Option<string>)
    requires 0 <= i < |parts|
    requires name == LastParam(Split(parts[i].disposition, ';'), NameKey)
    requires filename == LastParam(Split(parts[i].disposition, ';'), FilenameKey)
    ensures FieldMap(parts[..i + 1])
         == if name.Some? && name.value != "" then Put(FieldMap(parts[..i]), name.value, FilePart(filename, parts[i].content))
            else FieldMap(parts[..i])
  {
    assert parts[..i + 1][..i] == parts[..i];
    assert parts[..i + 1][i] == parts[i];
    match PartName(parts[i])
    case Some(k) =>
      var items := NamedItems(parts[..i]) + [(k, PartEntry(parts[i]))];
      assert NamedItems(parts[..i + 1]) == items;
      assert items[..|items| - 1] == NamedItems(parts[..i]);
    case None =>
  }

  /** The loop over the decoded parts. */
  method CollectParts(parts: seq<DecodedPart>) returns (files: Files)
    ensures files == FieldMap(parts)
  {
    files := [];
    var i := 0;
    while i < |parts|
      invariant 0 <= i <= |parts|
      invariant files == FieldMap(parts[..i])
    {
      var name, filename := ScanDisposition(parts[i].disposition);
      FieldMapStep(parts, i, name, filename);
      if name.Some? && name.value != "" {
        files := Put(files, name.value, FilePart(filename, parts[i].content));
      }
      i := i + 1;
    }
    assert parts[..i] == parts;
  }

  /** Reference outcome of `_parse_multipart`. */
  function ParseRequest(req: Request): Result<Files, string> {
    if !AcceptsContentType(req.contentType) then Failure(ContentTypeError)
    else
      match req.body
      case Undecodable(m) => Failure(m)
      case Decoded(parts) => Success(FieldMap(parts))
  }

  method ParseMultipart(req: Request) returns (r: Result<Files, string>)
    ensures r == ParseRequest(req)
  {
    var ctype := req.contentType;
    if ctype.None? || ctype.value == "" || !Contains(ctype.value, FormData) {
      return Failure(ContentTypeError);
    }
    match req.body
    case Undecodable(m) =>
      r := Failure(m);
    case Decoded(parts) =>
      var files := CollectParts(parts);
      r := Success(files);
  }

  // Properties of the scan

  /** `LastParam` returns the value of the last matching token, and `None`
      exactly when no token matches. */
  lemma {:induction false} LastParamAt(tokens: seq<string>, key: string, i: int)
    requires IsKey(key) && 0 <= i < |tokens| && StartsWith(Strip(tokens[i]), key)
    requires forall j :: i < j < |tokens| ==> !StartsWith(Strip(tokens[j]), key)
    ensures LastParam(tokens, key) == Some(ParamValue(Strip(tokens[i]), key))
    decreases |tokens|
  {
    var n := |tokens| - 1;
    if i < n {
      assert forall j :: i < j < n ==> tokens[..n][j] == tokens[j];
      assert tokens[..n][i] == tokens[i];
      LastParamAt(tokens[..n], key, i);
    }
  }

  lemma {:induction false} LastParamNone(tokens: seq<string>, key: string)
    requires IsKey(key)
    ensures LastParam(tokens, key) == None
        <==> forall j :: 0 <= j < |tokens| ==> !StartsWith(Strip(tokens[j]), key)
    decreases |tokens|
  {
    if tokens != [] {
      var n := |tokens| - 1;
      LastParamNone(tokens[..n], key);
      assert forall j :: 0 <= j < n ==> tokens[..n][j] == tokens[j];
    }
  }

  /** A name found by the scan carries no surrounding quotes. */
  lemma {:induction false} LastParamUnquoted(tokens: seq<string>, key: string)
    requires IsKey(key) && LastParam(tokens, key).Some?
    ensures var v := LastParam(tokens, key).value;
      v == [] || (v[0] != '"' && v[|v| - 1] != '"')
    decreases |tokens|
  {
    var n := |tokens| - 1;
    var t := Strip(tokens[n]);
    if StartsWith(t, key) {
      AfterFirstPrefix(t, key, '=');
      StripQuotesUnquoted(AfterFirst(t, '='));
    } else {
      LastParamUnquoted(tokens[..n], key);
    }
  }

  /** A `filename=` token never supplies the name: adding one leaves the name
      unchanged. */
  lemma FilenameNeverName(tokens: seq<string>, token: string)
    requires StartsWith(Strip(token), FilenameKey)
    ensures LastParam(tokens + [token], NameKey) == LastParam(tokens, NameKey)
  {
    var t := Strip(token);
    assert t[0] == 'f';
    assert !StartsWith(t, NameKey);
    assert (tokens + [token])[..|tokens|] == tokens;
  }

  function Quoted(w: string): string { "\"" + w + "\"" }

  /** A typical disposition, `form-data; name="w1"; filename="w2"`: the quoted
      name and file name come out bare. */
  lemma ScanExample(w1: string, w2: string)
    requires |w1| > 0 && w1[0] != '"' && w1[|w1| - 1] != '"' && ';' !in w1
    requires |w2| > 0 && w2[0] != '"' && w2[|w2| - 1] != '"' && ';' !in w2
    ensures var cd := "form-data; " + NameKey + Quoted(w1) + "; " + FilenameKey + Quoted(w2);
      && LastParam(Split(cd, ';'), NameKey) == Some(w1)
      && LastParam(Split(cd, ';'), FilenameKey) == Some(w2)
  {
    var cd := "form-data; " + NameKey + Quoted(w1) + "; " + FilenameKey + Quoted(w2);
    var pieces := ["form-data", " " + (NameKey + Quoted(w1)), " " + (FilenameKey + Quoted(w2))];
    ExampleSplit(w1, w2, cd, pieces);
    ExamplePieces(w1, w2, pieces);
  }

  /** The scan over the three example tokens finds the name in the second. */
  lemma ExamplePieces(w1: string, w2: string, pieces: seq<string>)
    requires |w1| > 0 && w1[0] != '"' && w1[|w1| - 1] != '"'
    requires |w2| > 0 && w2[0] != '"' && w2[|w2| - 1] != '"'
    requires pieces == ["form-data", " " + (NameKey + Quoted(w1)), " " + (FilenameKey + Quoted(w2))]
    ensures LastParam(pieces, NameKey) == Some(w1)
    ensures LastParam(pieces, FilenameKey) == Some(w2)
  {
    ExampleNamePiece(w1, w2, pieces);
    var fileTok := FilenameKey + Quoted(w2);
    StripOneSpace(fileTok);
    ExampleValue(FilenameKey, w2);
    LastParamAt(pieces, FilenameKey, 2);
  }

  lemma ExampleNamePiece(w1: string, w2: string, pieces: seq<string>)
    requires |w1| > 0 && w1[0] != '"' && w1[|w1| - 1] != '"'
    requires pieces == ["form-data", " " + (NameKey + Quoted(w1)), " " + (FilenameKey + Quoted(w2))]
    ensures LastParam(pieces, NameKey) == Some(w1)
  {
    var nameTok, fileTok := NameKey + Quoted(w1), FilenameKey + Quoted(w2);
    StripOneSpace(nameTok);
    StripOneSpace(fileTok);
    ExampleValue(NameKey, w1);
    assert fileTok[0] == 'f';
    assert !StartsWith(fileTok, NameKey);
    LastParamAt(pieces, NameKey, 1);
  }

  lemma ExampleSplit(w1: string, w2: string, cd: string, pieces: seq<string>)
    requires ';' !in w1 && ';' !in w2
    requires cd == "form-data; " + NameKey + Quoted(w1) + "; " + FilenameKey + Quoted(w2)
    requires pieces == ["form-data", " " + (NameKey + Quoted(w1)), " " + (FilenameKey + Quoted(w2))]
    ensures Split(cd, ';') == pieces
  {
    assert Join(pieces[2..], ';') == pieces[2];
    assert Join(pieces[1..], ';') == pieces[1] + ";" + pieces[2];
    assert Join(pieces, ';') == pieces[0] + ";" + (pieces[1] + ";" + pieces[2]);
    assert pieces[0] + ";" + (pieces[1] + ";" + pieces[2]) == cd;
    assert ';' !in pieces[0];
    assert ';' !in pieces[1];
    assert ';' !in pieces[2];
    SplitJoin(pieces, ';');
  }

  lemma ExampleValue(key: string, w: string)
    requires IsKey(key)
    requires |w| > 0 && w[0] != '"' && w[|w| - 1] != '"'
    ensures var token := key + Quoted(w);
      StartsWith(token, key) && ParamValue(token, key) == w
  {
    var token := key + Quoted(w);
    assert token[..|key|] == key;
    AfterFirstPrefix(token, key, '=');
    assert token[|key|..] == Quoted(w);
    UnquoteWord(w);
  }

  lemma StripOneSpace(w: string)
    requires |w| > 0 && w[0] !in Whitespace && w[|w| - 1] !in Whitespace
    ensures Strip(" " + w) == w
  {
    assert (" " + w)[1..] == w;
    assert DropLeading(" " + w, Whitespace) == DropLeading(w, Whitespace) == w;
  }

  lemma UnquoteWord(w: string)
    requires |w| > 0 && w[0] != '"' && w[|w| - 1] != '"'
    ensures StripQuotes(Quoted(w)) == w
  {
    var q := Quoted(w);
    assert q[1..] == w + "\"";
    assert DropLeading(q, {'"'}) == DropLeading(w + "\"", {'"'}) == w + "\"";
    assert (w + "\"")[..|w|] == w;
    assert DropTrailing(w + "\"", {'"'}) == DropTrailing(w, {'"'}) == w;
  }

  // Properties of the field map

  /** The items of a loop that files each element under the key `name`
      gives it, skipping the unnamed ones; `NamedItems` is this with the
      part's scanned name and entry. */
  function Assigned<T>(xs: seq<T>, name: T -> Option<string>, entry: T -> FilePart): seq<(string, FilePart)>
    decreases |xs|
  {
    if xs == [] then []
    else
      var n := |xs| - 1;
      match name(xs[n])
      case Some(k) => Assigned(xs[..n], name, entry) + [(k, entry(xs[n]))]
      case None => Assigned(xs[..n], name, entry)
  }

  lemma {:induction false} NamedItemsAssigned(parts: seq<DecodedPart>)
    ensures NamedItems(parts) == Assigned(parts, PartName, PartEntry)
    decreases |parts|
  {
    if parts != [] {
      NamedItemsAssigned(parts[..|parts| - 1]);
    }
  }

  predicate KeyFree(items: seq<(string, FilePart)>, k: string) {
    forall j :: 0 <= j < |items| ==> items[j].0 != k
  }

  predicate NoneNamed<T>(xs: seq<T>, name: T -> Option<string>, k: string) {
    forall i :: 0 <= i < |xs| ==> name(xs[i]) != Some(k)
  }

  lemma {:induction false} AssignedKeys<T>(xs: seq<T>, name: T -> Option<string>, entry: T -> FilePart, k: string)
    ensures KeyFree(Assigned(xs, name, entry), k) <==> NoneNamed(xs, name, k)
    decreases |xs|
  {
    if xs != [] {
      var n := |xs| - 1;
      AssignedKeys(xs[..n], name, entry, k);
      var front := Assigned(xs[..n], name, entry);
      var items := Assigned(xs, name, entry);
      assert forall i :: 0 <= i < n ==> xs[..n][i] == xs[i];
      assert NoneNamed(xs, name, k) == (NoneNamed(xs[..n], name, k) && name(xs[n]) != Some(k));
      match name(xs[n])
      case Some(k') =>
        assert items == front + [(k', entry(xs[n]))];
        assert forall j :: 0 <= j < |front| ==> items[j] == front[j];
        assert items[|front|].0 == k';
        assert KeyFree(items, k) == (KeyFree(front, k) && k' != k);
      case None =>
        assert items == front;
    }
  }

  /** A field is present exactly when some part is named after it, and its
      value comes from the last such part. */
  lemma NamedItemsKeys(parts: seq<DecodedPart>, k: string)
    ensures (forall j :: 0 <= j < |NamedItems(parts)| ==> NamedItems(parts)[j].0 != k)
        <==> forall i :: 0 <= i < |parts| ==> PartName(parts[i]) != Some(k)
  {
    NamedItemsAssigned(parts);
    AssignedKeys(parts, PartName, PartEntry, k);
    assert KeyFree(NamedItems(parts), k) <==> NoneNamed(parts, PartName, k);
  }

  lemma {:induction false} AssignedLast<T>(xs: seq<T>, name: T -> Option<string>, entry: T -> FilePart, k: string, i: int)
    requires 0 <= i < |xs| && name(xs[i]) == Some(k)
    requires forall j :: i < j < |xs| ==> name(xs[j]) != Some(k)
    ensures LastValue(Assigned(xs, name, entry), k) == Some(entry(xs[i]))
    decreases |xs|
  {
    var n := |xs| - 1;
    if i < n {
      assert forall j :: i < j < n ==> xs[..n][j] == xs[j];
      assert xs[..n][i] == xs[i];
      AssignedLast(xs[..n], name, entry, k, i);
    }
  }

  lemma NamedItemsLast(parts: seq<DecodedPart>, k: string, i: int)
    requires 0 <= i < |parts| && PartName(parts[i]) == Some(k)
    requires forall j :: i < j < |parts| ==> PartName(parts[j]) != Some(k)
    ensures LastValue(NamedItems(parts), k) == Some(PartEntry(parts[i]))
  {
    NamedItemsAssigned(parts);
    AssignedLast(parts, PartName, PartEntry, k, i);
  }

  lemma FieldMapGet(parts: seq<DecodedPart>, k: string, i: int)
    requires 0 <= i < |parts| && PartName(parts[i]) == Some(k)
    requires forall j :: i < j < |parts| ==> PartName(parts[j]) != Some(k)
    ensures Get(FieldMap(parts), k) == Some(PartEntry(parts[i]))
  {
    FromItemsGet(NamedItems(parts), k);
    NamedItemsLast(parts, k, i);
  }

  lemma FieldMapMissing(parts: seq<DecodedPart>, k: string)
    ensures Get(FieldMap(parts), k) == None
        <==> forall i :: 0 <= i < |parts| ==> PartName(parts[i]) != Some(k)
  {
    FromItemsGet(NamedItems(parts), k);
    LastValueNone(NamedItems(parts), k);
    NamedItemsAssigned(parts);
    AssignedKeys(parts, PartName, PartEntry, k);
    assert (Get(FieldMap(parts), k) == None) == KeyFree(NamedItems(parts), k);
    assert KeyFree(NamedItems(parts), k) == NoneNamed(parts, PartName, k);
  }

  /** No part is filed under the empty name. */
  lemma FieldMapNoEmptyName(parts: seq<DecodedPart>)
    ensures Get(FieldMap(parts), "") == None
  {
    FieldMapMissing(parts, "");
  }

  /** The gate is a case-sensitive substring test. */
  lemma ContentTypeGate(ctype: string)
    ensures AcceptsContentType(Some(ctype)) <==> exists i :: OccursAt(ctype, FormData, i)
    ensures !AcceptsContentType(None)
  {
    ContainsIff(ctype, FormData);
  }

  lemma ContentTypeCaseSensitive()
    ensures !AcceptsContentType(Some("Multipart/Form-Data"))
    ensures AcceptsContentType(Some("multipart/form-data; boundary=x"))
  {
    var bad := "Multipart/Form-Data";
    assert bad[..|FormData|][0] != FormData[0];
    ContainsTooShort(bad[1..], FormData);
    var good := "multipart/form-data; boundary=x";
    assert OccursAt(good, FormData, 0);
    ContainsIff(good, FormData);
  }
}
