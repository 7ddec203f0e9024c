/**
 * TCallbackResponseAdapter and TCallbackResponseWriter: during a callback the
 * response content is collected in a list of writers, each of which wraps its
 * chunk in HTML comments carrying its boundary identifier, so that several
 * chunks can travel in one response; a redirect is recorded, not performed.
 */
module CallbackResponse {
  import opened Wrappers
  import opened Text
  import opened Redirect

  /** The comment that opens a chunk with boundary b. */
  function OpenMark(b: string): string {
    "<!--" + b + "-->"
  }

  /** The comment that closes a chunk with boundary b. */
  function CloseMark(b: string): string {
    "<!--//" + b + "-->"
  }

  /** TCallbackResponseWriter::flush's framing of `content` with boundary b. */
  function Wrap(b: string, content: string): (r: string)
    ensures |r| == |content| + 2 * |b| + 16
  {
    OpenMark(b) + content + CloseMark(b)
  }

  /** What a client reading a chunk with boundary b recovers: the text between the two marks. */
  function Unwrap(b: string, chunk: string): Option<string> {
    var open, close := OpenMark(b), CloseMark(b);
    if |chunk| >= |open| + |close| && chunk[..|open|] == open && chunk[|chunk| - |close|..] == close
    then Some(chunk[|open|..|chunk| - |close|])
    else None
  }

  /** A wrapped chunk gives its content back, whatever the content holds. */
  lemma UnwrapWrap(b: string, content: string)
    ensures Unwrap(b, Wrap(b, content)) == Some(content)
  {
    var open, close := OpenMark(b), CloseMark(b);
    var s := Wrap(b, content);
    assert s == open + (content + close);
    assert s[..|open|] == open;
    assert s[|s| - |close|..] == close;
    assert s[|open|..|s| - |close|] == content;
  }

  /** Whatever a reader recovers came from wrapping exactly that content. */
  lemma WrapUnwrap(b: string, chunk: string)
    requires Unwrap(b, chunk).Some?
    ensures Wrap(b, Unwrap(b, chunk).value) == chunk
  {
    var open, close := OpenMark(b), CloseMark(b);
    var middle := chunk[|open|..|chunk| - |close|];
    assert chunk == chunk[..|open|] + middle + chunk[|chunk| - |close|..];
  }

  /** A TCallbackResponseWriter: a text writer with a boundary identifier. */
  class CallbackResponseWriter {
    var boundary: string
    /** The text written so far. */
    var content: string

    /** The generated boundary (sprintf('%x', crc32(microtime()))) is given by the caller. */
    constructor(boundary: string)
      ensures this.boundary == boundary && content == ""
    {
      this.boundary := boundary;
      content := "";
    }

    function GetBoundary(): string
      reads this
    {
      boundary
    }

    method SetBoundary(value: string)
      modifies this
      ensures GetBoundary() == value && content == old(content)
    {
      boundary := value;
    }

    method Write(text: string)
      modifies this
      ensures content == old(content) + text && boundary == old(boundary)
    {
      content := content + text;
    }

    /** flush: the content framed by the boundary marks; a reader recovers exactly the content. */
    function Flush(): (r: string)
      reads this
      ensures Unwrap(boundary, r) == Some(content)
    {
      UnwrapWrap(boundary, content);
      Wrap(boundary, content)
    }
  }

  /** The flushed chunks of `writers`, concatenated in list order. */
  function Flushed(writers: seq<CallbackResponseWriter>): string
    reads writers
  {
    if writers == [] then ""
    else Flushed(writers[..|writers| - 1]) + writers[|writers| - 1].Flush()
  }

  /** The output for a prefix of the writers is a prefix of the whole output: chunks come in creation order. */
  lemma {:induction false} FlushedPrefix(writers: seq<CallbackResponseWriter>, k: nat)
    requires k <= |writers|
    ensures |Flushed(writers[..k])| <= |Flushed(writers)|
    ensures Flushed(writers[..k]) == Flushed(writers)[..|Flushed(writers[..k])|]
    decreases |writers|
  {
    if k < |writers| {
      var init := writers[..|writers| - 1];
      FlushedPrefix(init, k);
      assert init[..k] == writers[..k];
    } else {
      assert writers[..k] == writers;
    }
  }

  /** The chunk of writer k starts right after the chunks of the writers before it. */
  lemma FlushedChunkAt(writers: seq<CallbackResponseWriter>, k: nat)
    requires k < |writers|
    ensures Flushed(writers[..k + 1]) == Flushed(writers[..k]) + writers[k].Flush()
  {
    assert writers[..k + 1][..k] == writers[..k];
  }

  /** A TCallbackResponseAdapter. */
  class CallbackResponseAdapter {
    var writers: seq<CallbackResponseWriter>
    /** The callback response data; None stands for PHP's null. */
    var data: Option<string>
    var redirectUrl: Option<string>

    constructor()
      ensures writers == [] && data.None? && redirectUrl.None?
    {
      writers, data, redirectUrl := [], None, None;
    }

    /**
     * createNewHtmlWriter: appends one new, empty writer and leaves the
     * earlier writers, and so their output, untouched.
     */
    method CreateNewHtmlWriter(boundary: string) returns (w: CallbackResponseWriter)
      modifies this
      ensures fresh(w) && w.boundary == boundary && w.content == ""
      ensures writers == old(writers) + [w]
      ensures Flushed(writers) == old(Flushed(writers)) + Wrap(boundary, "")
      ensures data == old(data) && redirectUrl == old(redirectUrl)
    {
      w := new CallbackResponseWriter(boundary);
      writers := writers + [w];
      assert writers[..|writers| - 1] == old(writers);
    }

    /** flushContent: the chunk of every writer, in creation order. */
    method FlushContent() returns (out: string)
      ensures out == Flushed(writers)
    {
      out := "";
      var i := 0;
      while i < |writers|
        invariant 0 <= i <= |writers|
        invariant out == Flushed(writers[..i])
      {
        FlushedChunkAt(writers, i);
        out := out + writers[i].Flush();
        i := i + 1;
      }
      assert writers[..|writers|] == writers;
    }

    /** getResponseData: None from construction until setResponseData, then the value last set. */
    function GetResponseData(): (r: Option<string>)
      reads this
      ensures r == data
    {
      data
    }

    method SetResponseData(value: string)
      modifies this
      ensures GetResponseData() == Some(value)
      ensures writers == old(writers) && redirectUrl == old(redirectUrl)
    {
      data := Some(value);
    }

    /** getRedirectedUrl: None until a redirect is recorded. */
    function GetRedirectedUrl(): (r: Option<string>)
      reads this
      ensures r == redirectUrl
    {
      redirectUrl
    }

    /** httpRedirect: records the rewritten target and goes on processing the page. */
    method HttpRedirect(url: string, baseUrl: string)
      modifies this
      ensures GetRedirectedUrl() == Some(RedirectTarget(url, baseUrl))
      ensures writers == old(writers) && data == old(data)
    {
      redirectUrl := Some(RedirectTarget(url, baseUrl));
    }
  }
}
