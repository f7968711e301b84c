/**
 * The preview pane's choice of highlighting class (`showCodePreview` and
 * `getLanguageClass` in `static/js/main.js`): the text after the last dot of
 * the path, lower-cased, looked up in a fixed table.
 */
module Preview {
  import opened Text

  /** `languageMap`: the extensions the page knows, and their Prism language. */
  const LanguageMap: map<string, string> :=
    map["py" := "python", "js" := "javascript", "html" := "html", "css" := "css", "json" := "json"]

  const Fallback := "plaintext"

  /**
   * `filepath.split('.').pop().toLowerCase()`: a path without a dot is its own
   * extension. The result never holds a dot.
   */
  function Extension(path: string): (ext: string)
    ensures !Contains(path, ".") ==> ext == ToLower(path)
    ensures |ext| <= |path|
    ensures Lacks(ext, '.')
  {
    var seg := LastSegment(path, ".");
    LastSegmentFacts(path, ".");
    LacksContains(seg, '.');
    ToLower(seg)
  }

  /** `getLanguageClass`: the table's language, or the fallback for any other extension. */
  function LanguageClass(ext: string): (lang: string)
    ensures lang != ""
    ensures lang == Fallback <==> ext !in LanguageMap
    ensures ext in LanguageMap ==> lang == LanguageMap[ext]
  {
    if ext in LanguageMap then LanguageMap[ext] else Fallback
  }

  /** The class the preview element gets for a file. */
  function PreviewClass(path: string): (cls: string)
    ensures StartsWith(cls, "language-")
  {
    "language-" + LanguageClass(Extension(path))
  }

  /**
   * The extension is what follows the last dot, whatever comes before it:
   * `a.b.PY` and `x.py` both highlight as the language the table gives `py`.
   */
  lemma ExtensionAfterDot(stem: string, ext: string)
    requires !Contains(ext, ".")
    ensures Extension(stem + "." + ext) == ToLower(ext)
    ensures PreviewClass(stem + "." + ext) == "language-" + LanguageClass(ToLower(ext))
  {
    LastSegmentAfter(stem, '.', ext);
  }

  /** Lower-casing makes the lookup blind to the case of ASCII letters. */
  lemma CaseBlind(stem: string, ext: string, other: string)
    requires !Contains(ext, ".") && !Contains(other, ".")
    requires ToLower(ext) == ToLower(other)
    ensures PreviewClass(stem + "." + ext) == PreviewClass(stem + "." + other)
  {
    ExtensionAfterDot(stem, ext);
    ExtensionAfterDot(stem, other);
  }
}
