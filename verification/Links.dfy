/**
 The link fields of a record (internal/facility/catalog.go:272-352): a text, what the
 library's URL parser makes of it, and the shapes the catalog accepts.
 */
module Links {
  import opened Wrappers

  /** The parts the checks look at; host is hostname and port together, as written. */
  datatype Url = Url(scheme: string, host: string, hostname: string, port: string, hasUser: bool,
                     path: string, rawQuery: string, fragment: string)

  /** A field: its text, "" when missing, and the parser's result for it, None if it is no URL. */
  datatype Link = Link(text: string, parsed: Option<Url>)

  predicate IsCanonicalHttps(l: Link) {
    && l.parsed.Some?
    && var u := l.parsed.value;
       && u.scheme == "https" && u.hostname != "" && !u.hasUser && u.port == ""
       && !(u.host != "" && u.host[|u.host| - 1] == ':')
  }

  /** The source of a record may also be plain HTTP. */
  predicate IsHttp(l: Link) {
    && l.parsed.Some?
    && (l.parsed.value.scheme == "https" || l.parsed.value.scheme == "http") && l.parsed.value.host != ""
  }

  predicate IsLetterOrDigit(c: char) {
    'a' <= c <= 'z' || 'A' <= c <= 'Z' || '0' <= c <= '9'
  }

  predicate IsYouTubeVideoId(id: string) {
    |id| == 11 && forall c | c in id :: IsLetterOrDigit(c) || c == '_' || c == '-'
  }

  predicate IsWatchUrl(l: Link, videoId: string) {
    && IsCanonicalHttps(l)
    && var u := l.parsed.value;
       && u.host == "www.youtube.com" && u.path == "/watch" && u.fragment == ""
       && u.rawQuery == "v=" + videoId
  }

  function TrimSlashes(s: string): string {
    if s != "" && s[0] == '/' then TrimSlashes(s[1..])
    else if s != "" && s[|s| - 1] == '/' then TrimSlashes(s[..|s| - 1])
    else s
  }

  predicate IsProfileUrl(platform: string, l: Link) {
    && IsCanonicalHttps(l)
    && var u := l.parsed.value;
       && u.rawQuery == "" && u.fragment == ""
       && var handle := TrimSlashes(u.path);
          && handle != "" && '/' !in handle
          && if platform == "instagram" then
               && u.hostname in {"instagram.com", "www.instagram.com"}
               && forall c | c in handle :: IsLetterOrDigit(c) || c == '_' || c == '.'
             else
               && platform == "x"
               && u.hostname in {"x.com", "www.x.com"}
               && |handle| <= 15 && forall c | c in handle :: IsLetterOrDigit(c) || c == '_'
  }
}
