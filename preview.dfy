/** The script preview shown in each expander: long content is cut to its first
    500 characters followed by "...". */
module Preview {

  const PreviewLimit := 500
  const Ellipsis := "..."

  function Preview(content: string): (p: string)
    ensures |p| <= PreviewLimit + |Ellipsis|
    ensures |content| <= PreviewLimit ==> p == content
    ensures |content| > PreviewLimit ==> |p| > PreviewLimit && p[PreviewLimit..] == Ellipsis
    ensures |content| > PreviewLimit ==> p[..PreviewLimit] == content[..PreviewLimit]
  {
    if |content| > PreviewLimit then content[..PreviewLimit] + Ellipsis else content
  }

  /** Previewing a preview changes nothing. */
  lemma PreviewIdempotent(content: string)
    ensures Preview(Preview(content)) == Preview(content)
  {
  }

  /** The preview shows the content itself exactly when the content is short, or
      when it already is 500 characters followed by "...". */
  lemma PreviewUnchangedIff(content: string)
    ensures Preview(content) == content
        <==> |content| <= PreviewLimit || (|content| == PreviewLimit + |Ellipsis| && content[PreviewLimit..] == Ellipsis)
  {
  }
}
