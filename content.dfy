/**
 * The two document types of the content layer (contentlayer.config.ts): blog
 * posts (`.mdx` files in `posts`) and code snippets (`.mdx` files in `snippets`), and the
 * computed `slug` and `url` fields derived from the source file name.
 */
module Content {
  import opened Strings

  /** The part of the content layer's raw document data the resolvers read. */
  datatype RawDocument = RawDocument(sourceFileName: string)

  /**
   * A loaded blog post. `publishedAt` is a date string in the source; here it is
   * the timestamp that date denotes.
   */
  datatype Post = Post(
    id: string,
    raw: RawDocument,
    author: string,
    bannerUrl: string,
    description: string,
    publishedAt: int,
    slug: string,
    tags: seq<string>,
    timeToRead: string,
    title: string,
    url: string,
    docType: string,
    body: string
  )

  const MdxExtension := ".mdx"
  const BlogsPrefix := "/blogs/"
  const SnippetsPrefix := "/snippets/"

  /**
   * `name.replace(/\.mdx$/, '')`: the pattern is anchored at the end of the input
   * and has no global flag, so at most one trailing ".mdx" is removed.
   */
  function StripMdx(name: string): (slug: string)
    ensures EndsWith(name, MdxExtension) ==> slug + MdxExtension == name
    ensures !EndsWith(name, MdxExtension) ==> slug == name
  {
    if EndsWith(name, MdxExtension) then name[..|name| - |MdxExtension|] else name
  }

  /** Stripping undoes appending the extension, whatever the base name is. */
  lemma StripMdxRoundTrip(base: string)
    ensures StripMdx(base + MdxExtension) == base
  {
    var name := base + MdxExtension;
    assert name[|name| - |MdxExtension|..] == MdxExtension;
    assert name[..|name| - |MdxExtension|] == base;
  }

  /** Only one suffix goes: a doubled extension keeps its inner ".mdx". */
  lemma StripMdxOnce()
    ensures StripMdx("a.mdx.mdx") == "a.mdx"
  {
    StripMdxRoundTrip("a.mdx");
  }

  /** An ".mdx" that is not at the end stays. */
  lemma StripMdxKeepsInner()
    ensures StripMdx("a.mdx.txt") == "a.mdx.txt"
  {
    var name := "a.mdx.txt";
    assert name[|name| - 1] == 't' != MdxExtension[3];
  }

  /** The computed `slug` of both Post and Snippet. */
  function Slug(raw: RawDocument): (slug: string)
    ensures StartsWith(raw.sourceFileName, slug)
    ensures slug == raw.sourceFileName || raw.sourceFileName == slug + MdxExtension
  {
    StripMdx(raw.sourceFileName)
  }

  /** The computed `url` of a Post; it recomputes the slug rather than reading it. */
  function PostUrl(raw: RawDocument): (url: string)
    ensures StartsWith(url, BlogsPrefix) && url[|BlogsPrefix|..] == Slug(raw)
  {
    var url := BlogsPrefix + StripMdx(raw.sourceFileName);
    assert url[..|BlogsPrefix|] == BlogsPrefix;
    url
  }

  /** The computed `url` of a Snippet. */
  function SnippetUrl(raw: RawDocument): (url: string)
    ensures StartsWith(url, SnippetsPrefix) && url[|SnippetsPrefix|..] == Slug(raw)
  {
    var url := SnippetsPrefix + StripMdx(raw.sourceFileName);
    assert url[..|SnippetsPrefix|] == SnippetsPrefix;
    url
  }

  /** For a file `base.mdx` the post lives at `/blogs/base` and the snippet at `/snippets/base`. */
  lemma UrlsOfMdxFile(base: string)
    ensures Slug(RawDocument(base + MdxExtension)) == base
    ensures PostUrl(RawDocument(base + MdxExtension)) == BlogsPrefix + base
    ensures SnippetUrl(RawDocument(base + MdxExtension)) == SnippetsPrefix + base
  {
    StripMdxRoundTrip(base);
  }
}
