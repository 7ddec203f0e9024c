/**
 * THttpResponse with its output abstracted: headers are appended to a list,
 * output goes to the output buffer while buffering is active and to the
 * client otherwise, and `exit` is a flag.
 */
module Http {
  import opened Wrappers
  import opened Text
  import opened Redirect
  import opened CallbackResponse

  // ---------------------------------------------------------------- mime types

  /** writeFile's table of mime types by file extension, as written. */
  const DefaultMimeTypes: map<string, string> := map[
    "css" := "text/css",
    "gif" := "image/gif",
    "jpg" := "image/jpeg",
    "jpeg" := "image/jpeg",
    "htm" := "text/html",
    "html" := "text/html",
    "js" := "javascript/js"
  ]

  /** The position of the last c in s (strrchr), if any. */
  function LastIndexOf(s: string, c: char): (r: Option<nat>)
    ensures r.Some? ==> r.value < |s| && s[r.value] == c
  {
    if s == [] then None
    else if s[|s| - 1] == c then Some(|s| - 1)
    else LastIndexOf(s[..|s| - 1], c)
  }

  /** No c follows the position LastIndexOf answers, and None means there is no c at all. */
  lemma {:induction false} LastIndexOfIsLast(s: string, c: char)
    ensures LastIndexOf(s, c).Some? ==> c !in s[LastIndexOf(s, c).value + 1..]
    ensures LastIndexOf(s, c).None? ==> c !in s
    decreases |s|
  {
    if s != [] && s[|s| - 1] != c {
      var init := s[..|s| - 1];
      LastIndexOfIsLast(init, c);
      match LastIndexOf(init, c)
      case None =>
        assert s == init + [s[|s| - 1]];
      case Some(i) =>
        assert s[i + 1..] == init[i + 1..] + [s[|s| - 1]];
    }
  }

  /** substr(strrchr($fileName, '.'), 1): the text after the last dot, if the name has a dot. */
  function Extension(fileName: string): Option<string> {
    match LastIndexOf(fileName, '.')
    case None => None
    case Some(i) => Some(fileName[i + 1..])
  }

  /** The extension is what follows the last dot: the name is stem, dot, extension, with no dot in the extension. */
  lemma ExtensionSplitsName(fileName: string)
    ensures Extension(fileName).None? <==> '.' !in fileName
    ensures Extension(fileName).Some? ==>
              '.' !in Extension(fileName).value &&
              fileName == fileName[..|fileName| - |Extension(fileName).value| - 1] + "." + Extension(fileName).value
  {
    LastIndexOfIsLast(fileName, '.');
    if LastIndexOf(fileName, '.').Some? {
      var i := LastIndexOf(fileName, '.').value;
      assert fileName == fileName[..i] + [fileName[i]] + fileName[i + 1..];
    }
  }

  /** Appending a dotted extension to any stem gives that extension back. */
  lemma {:induction false} ExtensionOfDottedName(stem: string, ext: string)
    requires '.' !in ext
    ensures Extension(stem + "." + ext) == Some(ext)
    decreases |ext|
  {
    var name := stem + "." + ext;
    if ext == [] {
      assert name[|name| - 1] == '.';
    } else {
      var init := ext[..|ext| - 1];
      assert '.' !in init by {
        assert forall k :: 0 <= k < |init| ==> init[k] == ext[k];
      }
      ExtensionOfDottedName(stem, init);
      assert name[..|name| - 1] == stem + "." + init;
      assert name[|name| - 1] == ext[|ext| - 1] != '.';
      var i := |stem|;
      assert LastIndexOf(name, '.') == LastIndexOf(stem + "." + init, '.') == Some(i);
      assert name[i + 1..] == ext;
    }
  }

  /**
   * The mime type writeFile sends: the given one; otherwise what
   * mime_content_type answers when that function exists (`detected`);
   * otherwise the table entry for the extension, falling back to text/plain.
   */
  function FileMimeType(fileName: string, given: Option<string>, detected: Option<string>): (r: string)
    ensures given.Some? ==> r == given.value
    ensures given.None? && detected.Some? ==> r == detected.value
  {
    if given.Some? then given.value
    else if detected.Some? then detected.value
    else match Extension(fileName)
      case Some(ext) => if ext in DefaultMimeTypes then DefaultMimeTypes[ext] else "text/plain"
      case None => "text/plain"
  }

  /** Without a given type and without mime_content_type, the type comes from the table or is text/plain. */
  lemma MimeFallback(stem: string, ext: string)
    requires '.' !in ext
    ensures ext in DefaultMimeTypes ==> FileMimeType(stem + "." + ext, None, None) == DefaultMimeTypes[ext]
    ensures ext !in DefaultMimeTypes ==> FileMimeType(stem + "." + ext, None, None) == "text/plain"
  {
    ExtensionOfDottedName(stem, ext);
  }

  /** A name without a dot falls back to text/plain. */
  lemma MimeWithoutExtension(fileName: string)
    requires '.' !in fileName
    ensures FileMimeType(fileName, None, None) == "text/plain"
  {
    ExtensionSplitsName(fileName);
  }

  /** basename for names with forward slashes: the text after the last '/'. */
  function BaseName(fileName: string): (r: string)
    ensures |r| <= |fileName|
    ensures '/' !in r
    ensures '/' !in fileName ==> r == fileName
  {
    LastIndexOfIsLast(fileName, '/');
    match LastIndexOf(fileName, '/')
    case None => fileName
    case Some(i) => fileName[i + 1..]
  }

  // ---------------------------------------------------------------- headers

  /** The charset sendContentTypeHeader uses: the response's own, else the globalization's when there is one. */
  function EffectiveCharset(charset: string, globalCharset: Option<string>): (r: string)
    ensures charset != "" ==> r == charset
    ensures charset == "" && globalCharset.Some? ==> r == globalCharset.value
    ensures r == "" ==> charset == "" && (globalCharset.None? || globalCharset.value == "")
  {
    if charset == "" && globalCharset.Some? then globalCharset.value else charset
  }

  /** The header sendContentTypeHeader sends, if any. */
  function ContentTypeHeader(charset: string, globalCharset: Option<string>, contentType: Option<string>): (r: Option<string>)
    ensures r.None? <==> EffectiveCharset(charset, globalCharset) == "" && contentType.None?
  {
    var cs := EffectiveCharset(charset, globalCharset);
    if cs != "" then Some("Content-Type: " + contentType.GetOr("text/html") + ";charset=" + cs)
    else if contentType.Some? then Some("Content-Type: " + contentType.value + ";charset=UTF-8")
    else None
  }

  /**
   * Every Content-Type header names a type (text/html by default) and a charset
   * (the effective one, or UTF-8 when there is none), and the response's own
   * charset makes the globalization's irrelevant.
   */
  lemma ContentTypeHeaderShape(charset: string, globalCharset: Option<string>, contentType: Option<string>)
    ensures ContentTypeHeader(charset, globalCharset, contentType).Some? ==>
              var cs := EffectiveCharset(charset, globalCharset);
              ContentTypeHeader(charset, globalCharset, contentType).value ==
                "Content-Type: " + contentType.GetOr("text/html") + ";charset=" + (if cs != "" then cs else "UTF-8")
    ensures charset != "" ==> ContentTypeHeader(charset, globalCharset, contentType) == ContentTypeHeader(charset, None, contentType)
  {
  }

  /** The headers writeFile sends before the content, in order. */
  function FileHeaders(fileName: string, mimeType: string, length: nat, custom: Option<seq<string>>): (r: seq<string>)
    ensures |r| == |custom.GetOr(DefaultFileHeaders)| + 4
    ensures custom.Some? ==> r[..|custom.value|] == custom.value
    ensures custom.None? ==> r[..3] == DefaultFileHeaders
    ensures r[|r| - 4] == "Content-type: " + mimeType
  {
    custom.GetOr(DefaultFileHeaders) + [
      "Content-type: " + mimeType,
      "Content-Length: " + NatToDecimal(length),
      "Content-Disposition: attachment; filename=\"" + BaseName(fileName) + "\"",
      "Content-Transfer-Encoding: binary"
    ]
  }

  /** The cache headers writeFile sends when no header list is given. */
  const DefaultFileHeaders: seq<string> := [
    "Pragma: public",
    "Expires: 0",
    "Cache-Control: must-revalidate, post-check=0, pre-check=0"
  ]

  lemma PrefixGrows<T>(s: seq<T>, i: nat)
    requires i < |s|
    ensures s[..i + 1] == s[..i] + [s[i]]
  {
  }

  // ---------------------------------------------------------------- the response

  class HttpResponse {
    var bufferOutput: bool
    var initialized: bool
    var status: int
    var contentType: Option<string>
    var charset: string
    /** The headers sent so far, in order. */
    var headers: seq<string>
    /** The output that reached the client. */
    var sent: string
    /** The output buffer's content while buffering is active. */
    var buffer: string
    /** Set once `exit` ends the request. */
    var exited: bool
    var adapter: CallbackResponseAdapter?

    /** The output buffer is active only after init and only when buffering is on, and holds nothing otherwise. */
    predicate Valid()
      reads this
    {
      !(initialized && bufferOutput) ==> buffer == ""
    }

    constructor()
      ensures Valid()
      ensures bufferOutput && !initialized && status == 200
      ensures contentType.None? && charset == "" && adapter == null
      ensures headers == [] && sent == "" && buffer == "" && !exited
    {
      bufferOutput, initialized, status := true, false, 200;
      contentType, charset, adapter := None, "", null;
      headers, sent, buffer, exited := [], "", "", false;
    }

    /** The output buffer receives writes. */
    predicate Buffering()
      reads this
    {
      initialized && bufferOutput
    }

    /** init: starts the output buffer when buffering is on and marks the module initialised. */
    method Init()
      requires Valid()
      modifies this
      ensures Valid() && initialized
      ensures bufferOutput == old(bufferOutput) && status == old(status)
      ensures contentType == old(contentType) && charset == old(charset) && adapter == old(adapter)
      ensures headers == old(headers) && sent == old(sent) && buffer == old(buffer) && exited == old(exited)
    {
      initialized := true;
    }

    function GetBufferOutput(): bool
      reads this
    {
      bufferOutput
    }

    /** setBufferOutput: refused once init has run, leaving the flag as it was. */
    method SetBufferOutput(value: bool) returns (r: Result<()>)
      requires Valid()
      modifies this
      ensures Valid()
      ensures r.Failure? <==> old(initialized)
      ensures GetBufferOutput() == if old(initialized) then old(bufferOutput) else value
      ensures initialized == old(initialized) && status == old(status)
      ensures contentType == old(contentType) && charset == old(charset) && adapter == old(adapter)
      ensures headers == old(headers) && sent == old(sent) && buffer == old(buffer) && exited == old(exited)
    {
      if initialized {
        return Failure("httpresponse_bufferoutput_unchangeable");
      }
      bufferOutput := value;
      r := Success(());
    }

    /** getStatusCode: 200 until set. */
    function GetStatusCode(): int
      reads this
    {
      status
    }

    method SetStatusCode(code: int)
      modifies this
      ensures GetStatusCode() == code
      ensures bufferOutput == old(bufferOutput) && initialized == old(initialized)
      ensures contentType == old(contentType) && charset == old(charset) && adapter == old(adapter)
      ensures headers == old(headers) && sent == old(sent) && buffer == old(buffer) && exited == old(exited)
    {
      status := code;
    }

    method SetContentType(value: string)
      modifies this
      ensures contentType == Some(value)
      ensures bufferOutput == old(bufferOutput) && initialized == old(initialized) && status == old(status)
      ensures charset == old(charset) && adapter == old(adapter)
      ensures headers == old(headers) && sent == old(sent) && buffer == old(buffer) && exited == old(exited)
    {
      contentType := Some(value);
    }

    method SetCharset(value: string)
      modifies this
      ensures charset == value
      ensures bufferOutput == old(bufferOutput) && initialized == old(initialized) && status == old(status)
      ensures contentType == old(contentType) && adapter == old(adapter)
      ensures headers == old(headers) && sent == old(sent) && buffer == old(buffer) && exited == old(exited)
    {
      charset := value;
    }

    /** write: echo, into the output buffer while it is active, straight to the client otherwise. */
    method Write(text: string)
      requires Valid()
      modifies this
      ensures Valid()
      ensures Buffering() ==> buffer == old(buffer) + text && sent == old(sent)
      ensures !Buffering() ==> sent == old(sent) + text && buffer == old(buffer)
      ensures bufferOutput == old(bufferOutput) && initialized == old(initialized) && status == old(status)
      ensures contentType == old(contentType) && charset == old(charset) && adapter == old(adapter)
      ensures headers == old(headers) && exited == old(exited)
    {
      if initialized && bufferOutput {
        buffer := buffer + text;
      } else {
        sent := sent + text;
      }
    }

    /** getContents: the buffered output, and '' when buffering is off. */
    function GetContents(): (r: string)
      reads this
      requires Valid()
      ensures !bufferOutput ==> r == ""
      ensures r == buffer
    {
      if bufferOutput then buffer else ""
    }

    /** clear: empties the output buffer. */
    method Clear()
      requires Valid()
      modifies this
      ensures Valid() && buffer == ""
      ensures bufferOutput == old(bufferOutput) && initialized == old(initialized) && status == old(status)
      ensures contentType == old(contentType) && charset == old(charset) && adapter == old(adapter)
      ensures headers == old(headers) && sent == old(sent) && exited == old(exited)
    {
      if bufferOutput {
        buffer := "";
      }
    }

    method AppendHeader(header: string)
      modifies this
      ensures headers == old(headers) + [header]
      ensures bufferOutput == old(bufferOutput) && initialized == old(initialized) && status == old(status)
      ensures contentType == old(contentType) && charset == old(charset) && adapter == old(adapter)
      ensures sent == old(sent) && buffer == old(buffer) && exited == old(exited)
    {
      headers := headers + [header];
    }

    /**
     * sendContentTypeHeader, given the globalization module's charset when the
     * application has one: sends the Content-Type header it decides on, if any.
     */
    method SendContentTypeHeader(globalCharset: Option<string>)
      modifies this
      ensures headers == old(headers) + match ContentTypeHeader(charset, globalCharset, contentType)
                                         case Some(h) => [h]
                                         case None => []
      ensures bufferOutput == old(bufferOutput) && initialized == old(initialized) && status == old(status)
      ensures contentType == old(contentType) && charset == old(charset) && adapter == old(adapter)
      ensures sent == old(sent) && buffer == old(buffer) && exited == old(exited)
    {
      var cs := charset;
      if cs == "" && globalCharset.Some? {
        cs := globalCharset.value;
      }
      if cs != "" {
        var kind := if contentType.None? then "text/html" else contentType.value;
        AppendHeader("Content-Type: " + kind + ";charset=" + cs);
      } else if contentType.Some? {
        AppendHeader("Content-Type: " + contentType.value + ";charset=UTF-8");
      }
    }

    /** flushContent: sends the Content-Type header, then hands the buffered output to the client. */
    method FlushContent(globalCharset: Option<string>)
      requires Valid()
      modifies this
      ensures Valid() && buffer == ""
      ensures headers == old(headers) + match ContentTypeHeader(charset, globalCharset, contentType)
                                         case Some(h) => [h]
                                         case None => []
      ensures sent == old(sent) + old(buffer)
      ensures bufferOutput == old(bufferOutput) && initialized == old(initialized) && status == old(status)
      ensures contentType == old(contentType) && charset == old(charset) && adapter == old(adapter)
      ensures exited == old(exited)
    {
      SendContentTypeHeader(globalCharset);
      if bufferOutput {
        sent := sent + buffer;
        buffer := "";
      }
    }

    /**
     * flush: with an adapter, the adapter's writers' chunks are echoed through
     * the output and the adapter then hands back to the response's own
     * flushContent; without one, the response flushes its content directly.
     */
    method Flush(globalCharset: Option<string>)
      requires Valid()
      modifies this
      ensures Valid() && buffer == ""
      ensures adapter == old(adapter)
      ensures headers == old(headers) + match ContentTypeHeader(charset, globalCharset, contentType)
                                         case Some(h) => [h]
                                         case None => []
      ensures adapter != null ==> sent == old(sent) + old(buffer) + Flushed(adapter.writers)
      ensures adapter == null ==> sent == old(sent) + old(buffer)
      ensures bufferOutput == old(bufferOutput) && initialized == old(initialized) && status == old(status)
      ensures contentType == old(contentType) && charset == old(charset) && exited == old(exited)
    {
      if adapter != null {
        WriteAdapterOutput();
      }
      FlushContent(globalCharset);
    }

    /** The callback adapter's half of flush: the writers' chunks are written through the response. */
    method WriteAdapterOutput()
      requires Valid() && adapter != null
      modifies this
      ensures adapter == old(adapter) && Valid()
      ensures sent + buffer == old(sent) + old(buffer) + Flushed(adapter.writers)
      ensures bufferOutput == old(bufferOutput) && initialized == old(initialized) && status == old(status)
      ensures contentType == old(contentType) && charset == old(charset)
      ensures headers == old(headers) && exited == old(exited)
    {
      var out := adapter.FlushContent();
      ghost var before := sent + buffer;
      Write(out);
      assert sent + buffer == before + out;
    }

    /** httpRedirect: sends the Location header for the rewritten target and exits. */
    method HttpRedirect(url: string, baseUrl: string)
      modifies this
      ensures headers == old(headers) + ["Location: " + RedirectTarget(url, baseUrl)]
      ensures exited
      ensures bufferOutput == old(bufferOutput) && initialized == old(initialized) && status == old(status)
      ensures contentType == old(contentType) && charset == old(charset) && adapter == old(adapter)
      ensures sent == old(sent) && buffer == old(buffer)
    {
      AppendHeader("Location: " + RedirectTarget(url, baseUrl));
      exited := true;
    }

    /** redirect: the adapter records the redirect when there is one; otherwise the response redirects and exits. */
    method Redirect(url: string, baseUrl: string)
      modifies this, adapter
      ensures adapter == old(adapter)
      ensures sent == old(sent) && buffer == old(buffer) && status == old(status)
      ensures bufferOutput == old(bufferOutput) && initialized == old(initialized)
      ensures contentType == old(contentType) && charset == old(charset)
      ensures adapter != null ==>
                adapter.GetRedirectedUrl() == Some(RedirectTarget(url, baseUrl)) &&
                adapter.writers == old(adapter.writers) && adapter.GetResponseData() == old(adapter.GetResponseData()) &&
                headers == old(headers) && exited == old(exited)
      ensures adapter == null ==> headers == old(headers) + ["Location: " + RedirectTarget(url, baseUrl)] && exited
    {
      if adapter != null {
        adapter.HttpRedirect(url, baseUrl);
      } else {
        HttpRedirect(url, baseUrl);
      }
    }

    /** Sends each header of the list, in order. */
    method SendHeaders(list: seq<string>)
      modifies this
      ensures headers == old(headers) + list
      ensures bufferOutput == old(bufferOutput) && initialized == old(initialized) && status == old(status)
      ensures contentType == old(contentType) && charset == old(charset) && adapter == old(adapter)
      ensures sent == old(sent) && buffer == old(buffer) && exited == old(exited)
    {
      for i := 0 to |list|
        invariant headers == old(headers) + list[..i]
        invariant bufferOutput == old(bufferOutput) && initialized == old(initialized) && status == old(status)
        invariant contentType == old(contentType) && charset == old(charset) && adapter == old(adapter)
        invariant sent == old(sent) && buffer == old(buffer) && exited == old(exited)
      {
        PrefixGrows(list, i);
        AppendHeader(list[i]);
      }
      assert list[..|list|] == list;
    }

    /**
     * writeFile, with the file system and mime_content_type as parameters:
     * `detected` is mime_content_type's answer when that function exists, and
     * `fileSize`/`fileData` are what filesize and readfile give for the file.
     */
    method WriteFile(fileName: string, content: Option<string>, mimeType: Option<string>,
                     custom: Option<seq<string>>, detected: Option<string>, fileSize: nat, fileData: string)
      requires Valid()
      modifies this
      ensures Valid()
      ensures headers == old(headers) +
                FileHeaders(fileName, FileMimeType(fileName, mimeType, detected),
                            if content.Some? then |content.value| else fileSize, custom)
      ensures var body := if content.Some? then content.value else fileData;
              if Buffering() then buffer == old(buffer) + body && sent == old(sent)
              else sent == old(sent) + body && buffer == old(buffer)
      ensures bufferOutput == old(bufferOutput) && initialized == old(initialized) && status == old(status)
      ensures contentType == old(contentType) && charset == old(charset) && adapter == old(adapter)
      ensures exited == old(exited)
    {
      var length := if content.Some? then |content.value| else fileSize;
      var all := FileHeaders(fileName, FileMimeType(fileName, mimeType, detected), length, custom);
      SendHeaders(all);
      Write(if content.Some? then content.value else fileData);
    }
  }
}
