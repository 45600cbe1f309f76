/** The `Blog` bean that the crawler fills through its setters and the
    pipeline reads. Reference-typed fields may be null (`None`); `date` is a
    primitive `long` and so starts at 0. */
module BlogModel {

  import opened Wrappers
  import opened JavaLang

  /** One element of the statistics reply. Its fields are not part of this
      model: it is kept as an opaque value. */
  datatype BlogStats = BlogStats(json: string)

  /** Everything a `Blog` holds, as one value. */
  datatype BlogValue = BlogValue(
    id: Option<string>,
    title: Option<string>,
    date: Int64,
    content: Option<string>,
    author: Option<string>,
    tags: Option<seq<string>>,
    blogStats: Option<BlogStats>,
    url: Option<string>)

  /** The state of `new Blog()`: every reference null, `date` zero. */
  const Unset: BlogValue := BlogValue(None, None, 0, None, None, None, None, None)

  class Blog {
    var id: Option<string>
    var title: Option<string>
    var date: Int64
    var content: Option<string>
    var author: Option<string>
    var tags: Option<seq<string>>
    var blogStats: Option<BlogStats>
    var url: Option<string>

    function Value(): BlogValue
      reads this
    {
      BlogValue(id, title, date, content, author, tags, blogStats, url)
    }

    constructor ()
      ensures Value() == Unset
    {
      id, title, date, content := None, None, 0, None;
      author, tags, blogStats, url := None, None, None, None;
    }

    // Each setter overwrites its own field and leaves the other seven as they were.

    method SetId(v: Option<string>)
      modifies this
      ensures Value() == old(Value()).(id := v)
    {
      id := v;
    }

    method SetTitle(v: Option<string>)
      modifies this
      ensures Value() == old(Value()).(title := v)
    {
      title := v;
    }

    method SetDate(v: Int64)
      modifies this
      ensures Value() == old(Value()).(date := v)
    {
      date := v;
    }

    method SetContent(v: Option<string>)
      modifies this
      ensures Value() == old(Value()).(content := v)
    {
      content := v;
    }

    method SetAuthor(v: Option<string>)
      modifies this
      ensures Value() == old(Value()).(author := v)
    {
      author := v;
    }

    method SetTags(v: Option<seq<string>>)
      modifies this
      ensures Value() == old(Value()).(tags := v)
    {
      tags := v;
    }

    method SetBlogStats(v: Option<BlogStats>)
      modifies this
      ensures Value() == old(Value()).(blogStats := v)
    {
      blogStats := v;
    }

    method SetUrl(v: Option<string>)
      modifies this
      ensures Value() == old(Value()).(url := v)
    {
      url := v;
    }
  }
}
