/** The architecture section of the AIBOM, `extract_model_architecture`: a
    preview of the model's source text, cut to 500 characters plus an
    ellipsis, and the file's size in bytes. */
module Architecture {
  import opened Wrappers
  import opened Json

  const PreviewLimit: nat := 500
  const Ellipsis := "..."

  /** `code[:500] + "..." if len(code) > 500 else code`. */
  function Preview(code: string): (r: string)
    ensures |code| <= PreviewLimit ==> r == code
    ensures |code| > PreviewLimit ==> |r| == PreviewLimit + |Ellipsis| && r[PreviewLimit..] == Ellipsis
    ensures |r| <= PreviewLimit + |Ellipsis|
    ensures var m := if |code| < PreviewLimit then |code| else PreviewLimit; r[..m] == code[..m]
  {
    if |code| > PreviewLimit then code[..PreviewLimit] + Ellipsis else code
  }

  /** Previewing a preview changes nothing: a long text's preview is itself
      long (503 characters) and is cut back to the same 500 + "...". */
  lemma PreviewIdempotent(code: string)
    ensures Preview(Preview(code)) == Preview(code)
  {
    var p := Preview(code);
    if |code| > PreviewLimit {
      assert p[..PreviewLimit] == code[..PreviewLimit];
    }
  }

  /** A text is its own preview exactly when it is at most 500 characters,
      or is exactly 503 characters whose last three are "...". */
  lemma PreviewUnchangedIff(code: string)
    ensures Preview(code) == code <==>
      |code| <= PreviewLimit || (|code| == PreviewLimit + |Ellipsis| && code[PreviewLimit..] == Ellipsis)
  {
    if |code| == PreviewLimit + |Ellipsis| && code[PreviewLimit..] == Ellipsis {
      assert code == code[..PreviewLimit] + code[PreviewLimit..];
    }
  }

  /** Two long texts with the same first 500 characters have the same
      preview: nothing after the cut shows. */
  lemma PreviewSeesOnlyPrefix(a: string, b: string)
    requires |a| > PreviewLimit && |b| > PreviewLimit
    requires a[..PreviewLimit] == b[..PreviewLimit]
    ensures Preview(a) == Preview(b)
  {
  }

  /** `extract_model_architecture(model_file)`: `source` is the file's text, or
      None when opening or decoding it raises (the exception is caught and the
      section becomes `{}`); `sizeBytes` is `os.path.getsize(model_file)`. */
  function ModelArchitecture(source: Option<string>, sizeBytes: nat): (r: Json)
    ensures source.None? <==> r == EmptyObject
    ensures source.Some? ==> Get(r, "Preview", JNull) == Success(JStr(Preview(source.value)))
    ensures source.Some? ==> Get(r, "File Size", JNull) == Success(JNum(sizeBytes))
    ensures source.Some? ==> r.JObj? && Keys(r.members) == ["Preview", "File Size"]
  {
    match source
    case None => EmptyObject
    case Some(code) =>
      var members := [("Preview", JStr(Preview(code))), ("File Size", JNum(sizeBytes))];
      assert Find(members[1..], "File Size") == Some(JNum(sizeBytes));
      JObj(members)
  }
}
