/** The page processor for one blogger on cnblogs.com: it tells listing pages
    from post pages by URL prefix, follows the links of a listing page and
    turns a post page into a `Blog` stored on the page under
    `RESULT_ITEM_KEY`. The XPath results, the statistics reply and the date
    parser are inputs. */
module Crawler {

  import opened Wrappers
  import opened JavaLang
  import opened BlogModel

  const RESULT_ITEM_KEY: string := "BLOG_INFO"

  const SITE: string := "https://www.cnblogs.com/"

  const HTML_SUFFIX: string := ".html"

  /** URL prefix of the blogger's listing pages (`default.html?page=N`). */
  function ListPrefix(bloggerId: string): (r: string)
    ensures SITE + bloggerId + "/" <= r
    ensures r[|SITE| + |bloggerId| + 1..] == "default.html"
  {
    SITE + bloggerId + "/default.html"
  }

  /** URL prefix of the blogger's post pages (`p/<id>.html`). */
  function BlogPrefix(bloggerId: string): (r: string)
    ensures SITE + bloggerId + "/" <= r
    ensures r[|SITE| + |bloggerId| + 1..] == "p/"
  {
    SITE + bloggerId + "/p/"
  }

  /** The two prefixes share `SITE + bloggerId + "/"` and then differ at the
      next character ('d' against 'p'), so no URL starts with both. */
  lemma PrefixesExclusive(bloggerId: string, url: string)
    ensures !(ListPrefix(bloggerId) <= url && BlogPrefix(bloggerId) <= url)
  {
    var k := |SITE| + |bloggerId| + 1;
    assert ListPrefix(bloggerId)[k] == 'd';
    assert BlogPrefix(bloggerId)[k] == 'p';
    if ListPrefix(bloggerId) <= url {
      assert url[k] == 'd';
    }
  }

  datatype PageKind = ListingPage | PostPage | Unclassified

  /** The branch `process` takes for a URL. Each kind is decided by its own
      prefix alone, so the order of the two tests does not matter. */
  function Classify(bloggerId: string, url: string): (r: PageKind)
    ensures r == ListingPage <==> ListPrefix(bloggerId) <= url
    ensures r == PostPage <==> BlogPrefix(bloggerId) <= url
    ensures r == Unclassified <==> !(ListPrefix(bloggerId) <= url) && !(BlogPrefix(bloggerId) <= url)
  {
    PrefixesExclusive(bloggerId, url);
    if ListPrefix(bloggerId) <= url then ListingPage
    else if BlogPrefix(bloggerId) <= url then PostPage
    else Unclassified
  }

  /** The post id: `url.replace(blog_prefix, "").replace(".html", "")`. */
  function DeriveId(bloggerId: string, url: string): (r: string)
    ensures |r| <= |url|
  {
    ReplaceAll(ReplaceAll(url, BlogPrefix(bloggerId), ""), HTML_SUFFIX, "")
  }

  /** No occurrence of the post prefix (which ends in '/') starts inside
      `n + ".html"` when there is none in `n`. */
  lemma PrefixNotInTail(bloggerId: string, n: string)
    requires !Occurs(BlogPrefix(bloggerId), n)
    ensures forall k :: 0 <= k < |n + HTML_SUFFIX| ==> !MatchAt(n + HTML_SUFFIX, k, BlogPrefix(bloggerId))
  {
    var p, m := BlogPrefix(bloggerId), n + HTML_SUFFIX;
    forall k | 0 <= k < |m|
      ensures !MatchAt(m, k, p)
    {
      if k + |p| <= |n| {
        assert !MatchAt(n, k, p);
        assert n[k..k + |p|] == m[k..k + |p|];
      } else if k + |p| <= |m| {
        var j := k + |p| - 1;
        assert m[j] == HTML_SUFFIX[j - |n|] != '/';
        assert m[k..k + |p|][|p| - 1] != p[|p| - 1];
      }
    }
  }

  /** The only occurrence of ".html" in `n + ".html"` is the final one when
      `n` holds none: ".html" has no proper border, so none can straddle. */
  lemma SuffixOnlyAtEnd(n: string)
    requires !Occurs(HTML_SUFFIX, n)
    ensures forall k :: 0 <= k < |n| ==> !MatchAt(n + HTML_SUFFIX, k, HTML_SUFFIX)
  {
    var m := n + HTML_SUFFIX;
    forall k | 0 <= k < |n|
      ensures !MatchAt(m, k, HTML_SUFFIX)
    {
      if k + 5 <= |n| {
        assert !MatchAt(n, k, HTML_SUFFIX);
        assert n[k..k + 5] == m[k..k + 5];
      } else {
        var j := |n| - k;
        assert m[k..k + 5][j] == m[|n|] == '.';
        assert HTML_SUFFIX[j] != '.';
      }
    }
  }

  /** For `url = blog_prefix + n + ".html"` where `n` contains neither the
      prefix nor ".html", the derived id is `n`. */
  lemma {:induction false} DeriveIdOfPostUrl(bloggerId: string, n: string)
    requires !Occurs(BlogPrefix(bloggerId), n) && !Occurs(HTML_SUFFIX, n)
    ensures DeriveId(bloggerId, BlogPrefix(bloggerId) + n + HTML_SUFFIX) == n
  {
    var p, m := BlogPrefix(bloggerId), n + HTML_SUFFIX;
    var url := p + n + HTML_SUFFIX;
    assert url == p + m;
    assert url[..|p|] == p && url[|p|..] == m;
    assert ReplaceAll(url, p, "") == ReplaceAll(m, p, "");
    PrefixNotInTail(bloggerId, n);
    ReplaceSkips(m, |m|, p, "");
    assert m[..|m|] == m && m[|m|..] == [];
    assert ReplaceAll(url, p, "") == m;
    SuffixOnlyAtEnd(n);
    ReplaceSkips(m, |n|, HTML_SUFFIX, "");
    assert m[..|n|] == n && m[|n|..] == HTML_SUFFIX;
    assert ReplaceAll(HTML_SUFFIX, HTML_SUFFIX, "") == "" + ReplaceAll("", HTML_SUFFIX, "");
  }

  /** A numeric post number, as cnblogs uses (`.../p/14913423.html`), is
      recovered exactly, and two such post URLs never share an id. */
  lemma NumericPostId(bloggerId: string, n: string, n': string)
    requires forall i :: 0 <= i < |n| ==> '0' <= n[i] <= '9'
    requires forall i :: 0 <= i < |n'| ==> '0' <= n'[i] <= '9'
    ensures DeriveId(bloggerId, BlogPrefix(bloggerId) + n + HTML_SUFFIX) == n
    ensures (DeriveId(bloggerId, BlogPrefix(bloggerId) + n' + HTML_SUFFIX)
               == DeriveId(bloggerId, BlogPrefix(bloggerId) + n + HTML_SUFFIX)) ==> n' == n
  {
    NumericHasNoMarkers(bloggerId, n);
    NumericHasNoMarkers(bloggerId, n');
    DeriveIdOfPostUrl(bloggerId, n);
    DeriveIdOfPostUrl(bloggerId, n');
  }

  lemma NumericHasNoMarkers(bloggerId: string, n: string)
    requires forall i :: 0 <= i < |n| ==> '0' <= n[i] <= '9'
    ensures !Occurs(BlogPrefix(bloggerId), n) && !Occurs(HTML_SUFFIX, n)
  {
    forall k | 0 <= k <= |n|
      ensures !MatchAt(n, k, BlogPrefix(bloggerId)) && !MatchAt(n, k, HTML_SUFFIX)
    {
      if k < |n| {
        assert '0' <= n[k] <= '9';
        if k + |BlogPrefix(bloggerId)| <= |n| {
          assert n[k..k + |BlogPrefix(bloggerId)|][0] != BlogPrefix(bloggerId)[0];
        }
        if k + 5 <= |n| {
          assert n[k..k + 5][0] != HTML_SUFFIX[0];
        }
      }
    }
  }

  /** The results of the XPath expressions `process` evaluates on a page:
      a single-value `get()` may be null, a list `all()` may be empty. */
  datatype Html = Html(
    postLinks: seq<string>,     // hrefs of the post titles on a listing page
    navNext: Option<string>,    // href of the "next page" link
    title: Option<string>,      // text of the post title
    postDate: Option<string>,   // text of the post-date element
    body: Option<string>,       // the post body element
    entryTags: seq<string>)     // texts of the tag links

  /** A fetched page with the effects `process` may have on it. */
  class Page {
    const url: string
    const html: Html
    var targets: seq<string>
    var skip: bool
    var fields: map<string, Blog>

    constructor (url: string, html: Html)
      ensures this.url == url && this.html == html
      ensures targets == [] && !skip && fields == map[]
    {
      this.url, this.html := url, html;
      targets, skip, fields := [], false, map[];
    }

    method AddTargetRequests(links: seq<string>)
      modifies this
      ensures targets == old(targets) + links
      ensures skip == old(skip) && fields == old(fields)
    {
      targets := targets + links;
    }

    method AddTargetRequest(link: string)
      modifies this
      ensures targets == old(targets) + [link]
      ensures skip == old(skip) && fields == old(fields)
    {
      targets := targets + [link];
    }

    method SetSkip(b: bool)
      modifies this
      ensures skip == b
      ensures targets == old(targets) && fields == old(fields)
    {
      skip := b;
    }

    method PutField(key: string, blog: Blog)
      modifies this
      ensures fields == old(fields)[key := blog]
      ensures targets == old(targets) && skip == old(skip)
    {
      fields := fields[key := blog];
    }
  }

  /** The next-page link is followed when it is neither null nor empty. */
  predicate FollowsNext(next: Option<string>) {
    next.Some? && next.value != ""
  }

  /** The statistics kept from a parsed reply: its first element, when the
      reply is there and not empty. */
  function FirstStats(reply: Option<seq<BlogStats>>): (r: Option<BlogStats>)
    ensures r.Some? <==> reply.Some? && |reply.value| > 0
    ensures r.Some? ==> r.value == reply.value[0]
  {
    if reply.Some? && |reply.value| > 0 then Some(reply.value[0]) else None
  }

  class CnBlogsCrawler {
    const bloggerId: string
    const listPrefix: string
    const blogPrefix: string
    /** `sdf.parse(s).getTime()`, `None` where it throws ParseException. */
    const parseDate: string -> Option<Int64>

    ghost predicate Valid() {
      listPrefix == ListPrefix(bloggerId) && blogPrefix == BlogPrefix(bloggerId)
    }

    constructor (bloggerId: string, parseDate: string -> Option<Int64>)
      ensures Valid() && this.bloggerId == bloggerId && this.parseDate == parseDate
    {
      this.bloggerId := bloggerId;
      this.listPrefix := SITE + bloggerId + "/default.html";
      this.blogPrefix := SITE + bloggerId + "/p/";
      this.parseDate := parseDate;
    }

    /** `process(page)`. `statsReply` is the parsed answer of the statistics
        endpoint for this post (`None` for an empty body or a null parse).
        A post page whose date element is missing makes `sdf.parse(null)`
        throw NullPointerException, which `catch (ParseException)` does not
        catch: the page then gets no result item. */
    method Process(page: Page, statsReply: Option<seq<BlogStats>>) returns (thrown: Option<Throwable>)
      requires Valid()
      modifies page
      ensures Classify(bloggerId, page.url) == ListingPage ==>
        && thrown == None
        && page.targets == old(page.targets) + page.html.postLinks
             + (if FollowsNext(page.html.navNext) then [page.html.navNext.value] else [])
        && page.skip
        && page.fields == old(page.fields)
      ensures Classify(bloggerId, page.url) == Unclassified ==>
        && thrown == None
        && page.targets == old(page.targets) && page.skip == old(page.skip) && page.fields == old(page.fields)
      ensures Classify(bloggerId, page.url) == PostPage ==>
        && page.targets == old(page.targets) && page.skip == old(page.skip)
        && (page.html.postDate.None? ==> thrown == Some(NullPointer) && page.fields == old(page.fields))
      ensures Classify(bloggerId, page.url) == PostPage && page.html.postDate.Some? ==>
        && thrown == None
        && RESULT_ITEM_KEY in page.fields
        && fresh(page.fields[RESULT_ITEM_KEY])
        && page.fields == old(page.fields)[RESULT_ITEM_KEY := page.fields[RESULT_ITEM_KEY]]
        && var b, d := page.fields[RESULT_ITEM_KEY].Value(), parseDate(page.html.postDate.value);
           && b.id == Some(DeriveId(bloggerId, page.url))
           && b.title == page.html.title
           && b.content == page.html.body
           && b.author == Some(bloggerId)
           && b.tags == Some(page.html.entryTags)
           && b.url == Some(page.url)
           && b.blogStats == FirstStats(statsReply)
           && b.date == (if d.Some? then d.value else 0)
    {
      var url := page.url;
      thrown := None;
      if listPrefix <= url {
        page.AddTargetRequests(page.html.postLinks);
        var nextPage := page.html.navNext;
        if nextPage.Some? && nextPage.value != "" {
          page.AddTargetRequest(nextPage.value);
        }
        page.SetSkip(true);
      } else if blogPrefix <= url {
        var id := ReplaceAll(ReplaceAll(url, blogPrefix, ""), HTML_SUFFIX, "");
        var title := page.html.title;
        var time := page.html.postDate;
        var content := page.html.body;
        var tags := page.html.entryTags;

        var blog := new Blog();
        blog.SetId(Some(id));
        blog.SetTitle(title);
        blog.SetContent(content);
        blog.SetAuthor(Some(bloggerId));
        blog.SetTags(Some(tags));
        blog.SetUrl(Some(url));

        if statsReply.Some? && |statsReply.value| > 0 {
          blog.SetBlogStats(Some(statsReply.value[0]));
        }

        if time.None? {
          return Some(NullPointer);
        }
        var parsed := parseDate(time.value);
        if parsed.Some? {
          blog.SetDate(parsed.value);
        }

        page.PutField(RESULT_ITEM_KEY, blog);
      }
    }
  }
}
