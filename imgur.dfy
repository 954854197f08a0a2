/** `formatImgurUrl`: maps Imgur shorthands to one canonical direct-image URL. */
module Imgur {
  import opened Domain
  import opened Strings

  const CanonicalPrefix: string := "https://i.imgur.com/"
  const CanonicalSuffix: string := ".jpeg"

  /** The file extensions the direct-link pattern accepts after the id (matched ignoring case). */
  const Extensions: set<string> := {"jpeg", "jpg", "png", "gif", "apng", "tiff", "mp4", "webm", "pdf"}

  /** The scheme and host of a direct image link, in lower case. */
  const DirectHosts: set<string> := {"https://i.imgur.com/", "http://i.imgur.com/"}

  /** The optional section of a page link: none, an album or a gallery. */
  datatype Section = NoSection | Album | Gallery

  function SectionText(sec: Section): string
  {
    match sec
    case NoSection => ""
    case Album => "a/"
    case Gallery => "gallery/"
  }

  /** The scheme and host of an Imgur page link: `http` or `https`, with or without `www.`. */
  function PageHost(secure: bool, www: bool): string
  {
    (if secure then "https://" else "http://") + (if www then "www.imgur.com/" else "imgur.com/")
  }

  predicate NoLineTerminator(s: string)
  {
    forall i :: 0 <= i < |s| ==> !IsLineTerminator(s[i])
  }

  /** What may follow the id of a direct link: nothing, or `.` and a listed extension. */
  predicate ExtensionTail(dot: string)
  {
    dot == [] || (dot[0] == '.' && LowerAscii(dot[1..]) in Extensions)
  }

  function Canonical(id: string): string
  {
    CanonicalPrefix + id + CanonicalSuffix
  }

  /** A URL of the one form every Imgur shorthand is rewritten to. */
  predicate IsCanonical(u: string)
  {
    |u| > |CanonicalPrefix| + |CanonicalSuffix|
    && StartsWith(u, CanonicalPrefix)
    && u[|u| - |CanonicalSuffix|..] == CanonicalSuffix
    && AllAlnum(u[|CanonicalPrefix|..|u| - |CanonicalSuffix|])
  }

  /** The length of the `https?://i.imgur.com/` that starts `s` in any letter case, or 0. */
  function DirectPrefixLength(s: string): (k: nat)
    ensures k == 0 || k == 19 || k == 20
    ensures k <= |s|
  {
    var lower := LowerAscii(s);
    if StartsWith(lower, "https://i.imgur.com/") then 20
    else if StartsWith(lower, "http://i.imgur.com/") then 19
    else 0
  }

  /** `([a-zA-Z0-9]+)(\.(?:jpeg|...|pdf))?$` (ignoring case) on what follows the host. */
  function DirectIdAfter(rest: string): (r: Option<string>)
    ensures r.Some? ==> r.value != [] && AllAlnum(r.value)
  {
    var id := AlnumPrefix(rest);
    var tail := rest[|id|..];
    if id != [] && ExtensionTail(tail) then Some(id) else None
  }

  /** `^(https?://i\.imgur\.com/)([a-zA-Z0-9]+)(\.(?:jpeg|...|pdf))?$` with the `i` flag:
      the id when the whole input is a direct image link. */
  function DirectId(s: string): (r: Option<string>)
    ensures r.Some? ==> r.value != [] && AllAlnum(r.value)
  {
    var k := DirectPrefixLength(s);
    if k == 0 then None else DirectIdAfter(s[k..])
  }

  /** The id a greedy `([a-zA-Z0-9]+)(?:/?.*)?$` takes after an optional `a/` or `gallery/`,
      backtracking to no prefix when nothing alphanumeric follows it. */
  function PageTailId(rest: string): (r: Option<string>)
    ensures r.Some? ==> r.value != [] && AllAlnum(r.value)
  {
    if StartsWith(rest, "a/") && AlnumPrefix(rest[2..]) != [] then Some(AlnumPrefix(rest[2..]))
    else if StartsWith(rest, "gallery/") && AlnumPrefix(rest[8..]) != [] then Some(AlnumPrefix(rest[8..]))
    else if AlnumPrefix(rest) != [] then Some(AlnumPrefix(rest))
    else None
  }

  /** The length of the `https?://(www\.)?imgur.com/` that starts `s` (case matters), or 0. */
  function PagePrefixLength(s: string): (n: nat)
    ensures n <= |s|
  {
    var k := if StartsWith(s, "https://") then 8 else if StartsWith(s, "http://") then 7 else 0;
    if k == 0 then 0
    else
      var h := if StartsWith(s[k..], "www.imgur.com/") then 14
               else if StartsWith(s[k..], "imgur.com/") then 10
               else 0;
      if h == 0 then 0 else k + h
  }

  /** `^(https?://(?:www\.)?imgur\.com/(?:a/|gallery/)?)([a-zA-Z0-9]+)(?:/?.*)?$` (case
      matters): the id when the whole input is an Imgur page, album or gallery link; `.`
      matches anything but a line terminator. */
  function PageId(s: string): (r: Option<string>)
    ensures r.Some? ==> r.value != [] && AllAlnum(r.value)
  {
    var n := PagePrefixLength(s);
    if n == 0 then None
    else
      var rest := s[n..];
      if !NoLineTerminator(rest) then None else PageTailId(rest)
  }

  /** `^([a-zA-Z0-9]{5,10})$`: a bare Imgur id. */
  function BareId(s: string): (r: Option<string>)
    ensures r.Some? ==> r.value == s && 5 <= |s| <= 10 && AllAlnum(s)
  {
    if 5 <= |s| <= 10 && AllAlnum(s) then Some(s) else None
  }

  /** The three Imgur patterns, tried in the program's order. */
  function ImgurId(input: string): (r: Option<string>)
    ensures r.Some? ==> r.value != [] && AllAlnum(r.value)
  {
    if DirectId(input).Some? then DirectId(input)
    else if PageId(input).Some? then PageId(input)
    else BareId(input)
  }

  /** `formatImgurUrl`: null for blank input; the canonical URL for an Imgur shorthand; the
      trimmed input itself when it is some other http(s) URL; null otherwise. */
  function FormatImgurUrl(raw: string, isHttpUrl: UrlCheck): (r: Option<string>)
    ensures Trim(raw) == [] ==> r == None
    ensures r.Some? ==> IsCanonical(r.value) || (r.value == Trim(raw) && isHttpUrl(Trim(raw)))
    ensures ImgurId(Trim(raw)).None? ==> r == (if Trim(raw) != [] && isHttpUrl(Trim(raw)) then Some(Trim(raw)) else None)
  {
    var input := Trim(raw);
    if input == [] then None
    else
      match ImgurId(input)
      case Some(id) => CanonicalIsCanonical(id); Some(Canonical(id))
      case None => if isHttpUrl(input) then Some(input) else None
  }

  lemma CanonicalIsCanonical(id: string)
    requires id != [] && AllAlnum(id)
    ensures IsCanonical(Canonical(id))
  {
    var u := Canonical(id);
    assert u[..|CanonicalPrefix|] == CanonicalPrefix;
    assert u[|u| - |CanonicalSuffix|..] == CanonicalSuffix;
    assert u[|CanonicalPrefix|..|u| - |CanonicalSuffix|] == id;
  }

  /** A canonical URL is recognised as a direct link to the id it carries. */
  lemma DirectIdOfCanonical(id: string)
    requires id != [] && AllAlnum(id)
    ensures DirectId(Canonical(id)) == Some(id)
  {
    assert LowerAscii(CanonicalPrefix) == CanonicalPrefix;
    assert CanonicalSuffix[1..] == "jpeg" && LowerAscii("jpeg") == "jpeg";
    DirectIdOfLink(CanonicalPrefix, id, CanonicalSuffix);
  }

  lemma CanonicalIsTrimmed(id: string)
    requires AllAlnum(id)
    ensures Trim(Canonical(id)) == Canonical(id)
  {
    var u := Canonical(id);
    assert u[0] == 'h' && u[|u| - 1] == 'g';
    TrimmedIsFixed(u);
  }

  /** Normalising is idempotent: a non-null result normalises to itself. */
  lemma {:induction false} FormatImgurUrlIdempotent(raw: string, isHttpUrl: UrlCheck)
    requires FormatImgurUrl(raw, isHttpUrl).Some?
    ensures FormatImgurUrl(FormatImgurUrl(raw, isHttpUrl).value, isHttpUrl) == FormatImgurUrl(raw, isHttpUrl)
  {
    var input := Trim(raw);
    match ImgurId(input)
    case Some(id) =>
      CanonicalIsTrimmed(id);
      DirectIdOfCanonical(id);
    case None =>
      TrimIdempotent(raw);
  }

  /** What `FormatImgurUrl` does with an already trimmed input that one pattern recognises. */
  lemma FormatRecognised(s: string, id: string, isHttpUrl: UrlCheck)
    requires s != [] && !IsSpace(s[0]) && !IsSpace(s[|s| - 1])
    requires ImgurId(s) == Some(id)
    ensures FormatImgurUrl(s, isHttpUrl) == Some(Canonical(id))
  {
    TrimmedIsFixed(s);
  }

  lemma DirectPrefixOfScheme(scheme: string, rest: string)
    requires LowerAscii(scheme) in DirectHosts
    ensures DirectPrefixLength(scheme + rest) == |scheme|
  {
    var lower := LowerAscii(scheme + rest);
    LowerAsciiAppend(scheme, rest);
    assert lower[..|scheme|] == LowerAscii(scheme);
    if |scheme| == 19 {
      assert lower[4] == ':';
    }
  }

  lemma DirectIdAfterOf(id: string, dot: string)
    requires id != [] && AllAlnum(id)
    requires ExtensionTail(dot)
    ensures DirectIdAfter(id + dot) == Some(id)
  {
    AlnumPrefixOfAlnum(id, dot);
    assert (id + dot)[|id|..] == dot;
  }

  lemma DirectIdOfLink(scheme: string, id: string, dot: string)
    requires LowerAscii(scheme) in DirectHosts
    requires id != [] && AllAlnum(id)
    requires ExtensionTail(dot)
    ensures DirectId(scheme + id + dot) == Some(id)
  {
    var s := scheme + id + dot;
    assert s == scheme + (id + dot);
    DirectPrefixOfScheme(scheme, id + dot);
    assert s[|scheme|..] == id + dot;
    DirectIdAfterOf(id, dot);
  }

  lemma LinkEnds(scheme: string, id: string, dot: string)
    requires LowerAscii(scheme) in DirectHosts
    requires id != [] && IsAlnum(id[|id| - 1])
    requires dot != [] ==> IsAlnum(dot[|dot| - 1])
    ensures var s := scheme + id + dot; !IsSpace(s[0]) && !IsSpace(s[|s| - 1])
  {
    assert LowerAscii(scheme)[0] == 'h';
    var s := scheme + id + dot;
    assert s[0] == scheme[0];
    if dot == [] {
      assert s[|s| - 1] == id[|id| - 1];
    } else {
      assert s[|s| - 1] == dot[|dot| - 1];
    }
  }

  lemma DirectLinkSuffix(id: string, ext: string, dot: string)
    requires id != [] && AllAlnum(id)
    requires ext == [] || (AllAlnum(ext) && LowerAscii(ext) in Extensions)
    requires dot == if ext == [] then [] else ['.'] + ext
    ensures ExtensionTail(dot)
    ensures dot != [] ==> IsAlnum(dot[|dot| - 1])
  {
    if ext != [] {
      assert dot[1..] == ext;
    }
  }

  /** A direct link, in any letter case for its scheme and host, with or without a known
      extension, normalises to the canonical URL of its id. */
  lemma {:induction false} DirectLinkIsNormalised(scheme: string, id: string, ext: string, isHttpUrl: UrlCheck)
    requires LowerAscii(scheme) in DirectHosts
    requires id != [] && AllAlnum(id)
    requires ext == [] || (AllAlnum(ext) && LowerAscii(ext) in Extensions)
    ensures FormatImgurUrl(scheme + id + (if ext == [] then [] else ['.'] + ext), isHttpUrl) == Some(Canonical(id))
  {
    var dot := if ext == [] then [] else ['.'] + ext;
    var s := scheme + id + dot;
    DirectLinkSuffix(id, ext, dot);
    DirectIdOfLink(scheme, id, dot);
    assert ImgurId(s) == Some(id);
    LinkEnds(scheme, id, dot);
    FormatRecognised(s, id, isHttpUrl);
  }

  lemma NoPatternButBare(id: string)
    requires 5 <= |id| <= 10 && AllAlnum(id)
    ensures DirectId(id).None? && PageId(id).None?
  {
    assert IsAlnum(id[4]);
    assert id[4] != ':' && "http://"[4] == ':';
    if |id| >= 8 {
      assert IsAlnum(id[5]) && id[5] != ':' && "https://"[5] == ':';
      NotStartsWithAt(id, "https://", 5);
    }
    NotStartsWithAt(id, "http://", 4);
  }

  /** A bare id of five to ten letters and digits normalises to its canonical URL. */
  lemma {:induction false} BareIdIsNormalised(id: string, isHttpUrl: UrlCheck)
    requires 5 <= |id| <= 10 && AllAlnum(id)
    ensures FormatImgurUrl(id, isHttpUrl) == Some(Canonical(id))
  {
    NoPatternButBare(id);
    assert IsAlnum(id[0]) && IsAlnum(id[|id| - 1]);
    FormatRecognised(id, id, isHttpUrl);
  }

  /** A direct-link match is the whole input: a direct host in any letter case, the id, and
      an optional listed extension. */
  lemma DirectIdSound(s: string, id: string)
    requires DirectId(s) == Some(id)
    ensures exists scheme, dot :: LowerAscii(scheme) in DirectHosts && ExtensionTail(dot)
              && s == scheme + id + dot
  {
    var k := DirectPrefixLength(s);
    var lower := LowerAscii(s);
    assert LowerAscii(s[..k]) == lower[..k];
    var rest := s[k..];
    assert id == AlnumPrefix(rest);
    var dot := rest[|id|..];
    assert rest == id + dot + [];
    Reassemble(s, k, id, dot, []);
    assert s == s[..k] + id + dot;
  }

  lemma PageHostPrefix(secure: bool, www: bool, rest: string)
    ensures PagePrefixLength(PageHost(secure, www) + rest) == |PageHost(secure, www)|
  {
    var scheme: string := if secure then "https://" else "http://";
    var domain: string := if www then "www.imgur.com/" else "imgur.com/";
    var s := PageHost(secure, www) + rest;
    assert s == scheme + (domain + rest);
    StartsWithConcat(scheme, domain + rest);
    if !secure {
      assert s[4] == ':';
      NotStartsWithAt(s, "https://", 4);
    }
    assert s[|scheme|..] == domain + rest;
    StartsWithConcat(domain, rest);
    if !www {
      assert (domain + rest)[0] == 'i';
      NotStartsWithAt(domain + rest, "www.imgur.com/", 0);
    }
  }

  /** A non-zero page prefix length is the length of a page host the input starts with. */
  lemma PagePrefixLengthSound(s: string) returns (secure: bool, www: bool)
    requires PagePrefixLength(s) != 0
    ensures s[..PagePrefixLength(s)] == PageHost(secure, www)
  {
    secure := StartsWith(s, "https://");
    var k := if secure then 8 else 7;
    www := StartsWith(s[k..], "www.imgur.com/");
    var h := if www then 14 else 10;
    assert s[..k] == if secure then "https://" else "http://";
    assert s[k..][..h] == if www then "www.imgur.com/" else "imgur.com/";
    assert s[..k + h] == s[..k] + s[k..][..h];
  }

  /** An input that differs from each direct host at some position is no direct link. */
  lemma NotDirectAt(s: string, i: nat, j: nat)
    requires i < 20 && i < |s| && LowerChar(s[i]) != "https://i.imgur.com/"[i]
    requires j < 19 && j < |s| && LowerChar(s[j]) != "http://i.imgur.com/"[j]
    ensures DirectId(s).None?
  {
    var lower := LowerAscii(s);
    NotStartsWithAt(lower, "https://i.imgur.com/", i);
    NotStartsWithAt(lower, "http://i.imgur.com/", j);
  }

  /** No page link is a direct link. */
  lemma PageHostNotDirect(secure: bool, www: bool, rest: string)
    ensures DirectId(PageHost(secure, www) + rest).None?
  {
    var host := PageHost(secure, www);
    var s := host + rest;
    var i := if secure then (if www then 8 else 9) else 4;
    var j := if secure then 4 else (if www then 7 else 8);
    assert s[i] == host[i] && s[j] == host[j];
    NotDirectAt(s, i, j);
  }

  /** The section a page tail match skips, and the id is the alphanumeric run after it. */
  lemma PageTailSound(rest: string) returns (sec: Section)
    requires PageTailId(rest).Some?
    ensures StartsWith(rest, SectionText(sec))
    ensures PageTailId(rest) == Some(AlnumPrefix(rest[|SectionText(sec)|..]))
  {
    if StartsWith(rest, "a/") && AlnumPrefix(rest[2..]) != [] {
      sec := Album;
    } else if StartsWith(rest, "gallery/") && AlnumPrefix(rest[8..]) != [] {
      sec := Gallery;
    } else {
      sec := NoSection;
      assert rest[0..] == rest;
    }
  }

  /** A page-link match is the whole input: a page host, an optional section, the id, then
      the rest of a line that does not continue the id. */
  lemma PageIdSound(s: string, id: string)
    requires PageId(s) == Some(id)
    ensures exists secure: bool, www: bool, sec: Section, more: string ::
              && s == PageHost(secure, www) + SectionText(sec) + id + more
              && (more == [] || !IsAlnum(more[0]))
              && NoLineTerminator(more)
  {
    var n0 := PagePrefixLength(s);
    var secure, www := PagePrefixLengthSound(s);
    var rest := s[n0..];
    assert NoLineTerminator(rest) && PageTailId(rest) == Some(id);
    var sec := PageTailSound(rest);
    var more := PageTailSplit(rest, sec);
    Reassemble(s, n0, SectionText(sec), id, more);
  }

  lemma Reassemble(s: string, n: nat, t: string, id: string, more: string)
    requires n <= |s| && s[n..] == t + id + more
    ensures s == s[..n] + t + id + more
  {
    assert s == s[..n] + s[n..];
  }

  /** The tail of a page link splits into its section, its id and the rest of the line. */
  lemma PageTailSplit(rest: string, sec: Section) returns (more: string)
    requires NoLineTerminator(rest)
    requires StartsWith(rest, SectionText(sec))
    ensures var id := AlnumPrefix(rest[|SectionText(sec)|..]);
      && rest == SectionText(sec) + id + more
      && (more == [] || !IsAlnum(more[0]))
      && NoLineTerminator(more)
  {
    var m := |SectionText(sec)|;
    var after := rest[m..];
    var id := AlnumPrefix(after);
    more := after[|id|..];
    assert after == id + more;
    assert rest == SectionText(sec) + after;
    forall i | 0 <= i < |more|
      ensures !IsLineTerminator(more[i])
    {
      assert more[i] == rest[m + |id| + i];
    }
  }

  /** After the host, the section (when the link has one) is skipped and the whole
      alphanumeric run that follows is the id. Without a section, an id `a` or `gallery`
      followed by `/` and a letter or digit reads as a section instead. */
  lemma PageTailOf(sec: Section, id: string, more: string)
    requires id != [] && AllAlnum(id)
    requires more == [] || !IsAlnum(more[0])
    requires sec == NoSection ==> !((id == "a" || id == "gallery") && |more| >= 2 && more[0] == '/' && IsAlnum(more[1]))
    ensures PageTailId(SectionText(sec) + id + more) == Some(id)
  {
    AlnumPrefixOfAlnum(id, more);
    match sec
    case Album =>
      assert SectionText(sec) + id + more == "a/" + (id + more);
      AlbumTail(id + more);
    case Gallery =>
      assert SectionText(sec) + id + more == "gallery/" + (id + more);
      GalleryTail(id + more);
    case NoSection =>
      assert SectionText(sec) + id + more == id + more;
      BareTail(id, more);
  }

  lemma AlbumTail(after: string)
    requires AlnumPrefix(after) != []
    ensures PageTailId("a/" + after) == Some(AlnumPrefix(after))
  {
    var rest := "a/" + after;
    assert rest[..2] == "a/" && rest[2..] == after;
  }

  lemma GalleryTail(after: string)
    requires AlnumPrefix(after) != []
    ensures PageTailId("gallery/" + after) == Some(AlnumPrefix(after))
  {
    var rest := "gallery/" + after;
    assert rest[0] == 'g';
    NotStartsWithAt(rest, "a/", 0);
    assert rest[..8] == "gallery/" && rest[8..] == after;
  }

  lemma BareTail(id: string, more: string)
    requires id != [] && AllAlnum(id)
    requires more == [] || !IsAlnum(more[0])
    requires !((id == "a" || id == "gallery") && |more| >= 2 && more[0] == '/' && IsAlnum(more[1]))
    ensures PageTailId(id + more) == Some(id)
  {
    var rest := id + more;
    AlnumPrefixOfAlnum(id, more);
    if StartsWith(rest, "a/") {
      NotAlnumSection(id, more, "a");
      assert "a" + "/" == "a/";
    }
    if StartsWith(rest, "gallery/") {
      NotAlnumSection(id, more, "gallery");
      assert "gallery" + "/" == "gallery/";
    }
  }

  /** When `id + more` starts with the section word `w` and `/`, the id is exactly `w`. */
  lemma NotAlnumSection(id: string, more: string, w: string)
    requires id != [] && AllAlnum(id) && AllAlnum(w)
    requires more == [] || !IsAlnum(more[0])
    requires StartsWith(id + more, w + "/")
    requires !(id == w && |more| >= 2 && more[0] == '/' && IsAlnum(more[1]))
    ensures AlnumPrefix((id + more)[|w| + 1..]) == []
  {
    var rest := id + more;
    var after := rest[|w| + 1..];
    assert rest == w + ("/" + after);
    AlnumPrefixOfAlnum(id, more);
    AlnumPrefixOfAlnum(w, "/" + after);
    assert id == w;
    assert after == more[1..];
  }

  lemma PageLinkHasNoLineTerminator(sec: Section, id: string, more: string)
    requires AllAlnum(id) && NoLineTerminator(more)
    ensures NoLineTerminator(SectionText(sec) + id + more)
  {
    var t := SectionText(sec);
    var rest := t + id + more;
    forall i | 0 <= i < |rest|
      ensures !IsLineTerminator(rest[i])
    {
      if i < |t| {
        assert rest[i] == t[i];
      } else if i < |t| + |id| {
        assert rest[i] == id[i - |t|] && IsAlnum(id[i - |t|]);
      } else {
        assert rest[i] == more[i - |t| - |id|];
      }
    }
  }

  /** A page link reads as the id that follows its prefix. */
  lemma PageIdOfLink(secure: bool, www: bool, sec: Section, id: string, more: string)
    requires id != [] && AllAlnum(id)
    requires more == [] || !IsAlnum(more[0])
    requires NoLineTerminator(more)
    requires sec == NoSection ==> !((id == "a" || id == "gallery") && |more| >= 2 && more[0] == '/' && IsAlnum(more[1]))
    ensures PageId(PageHost(secure, www) + SectionText(sec) + id + more) == Some(id)
  {
    var host := PageHost(secure, www);
    var rest := SectionText(sec) + id + more;
    var s := host + rest;
    assert s == host + SectionText(sec) + id + more;
    PageHostPrefix(secure, www, rest);
    assert s[|host|..] == rest;
    PageLinkHasNoLineTerminator(sec, id, more);
    PageTailOf(sec, id, more);
  }

  /** An Imgur page, album or gallery link, over http or https, with or without `www.`,
      normalises to the canonical URL of its id, whatever follows the id on the same line. */
  lemma {:induction false} PageLinkIsNormalised(secure: bool, www: bool, sec: Section, id: string, more: string, isHttpUrl: UrlCheck)
    requires id != [] && AllAlnum(id)
    requires more == [] || (!IsAlnum(more[0]) && !IsSpace(more[|more| - 1]))
    requires NoLineTerminator(more)
    requires sec == NoSection ==> !((id == "a" || id == "gallery") && |more| >= 2 && more[0] == '/' && IsAlnum(more[1]))
    ensures FormatImgurUrl(PageHost(secure, www) + SectionText(sec) + id + more, isHttpUrl) == Some(Canonical(id))
  {
    var host := PageHost(secure, www);
    var tail := SectionText(sec) + id + more;
    var s := host + tail;
    assert s == host + SectionText(sec) + id + more;
    PageHostNotDirect(secure, www, tail);
    PageIdOfLink(secure, www, sec, id, more);
    assert ImgurId(s) == Some(id);
    PageLinkEnds(host, sec, id, more);
    FormatRecognised(s, id, isHttpUrl);
  }

  lemma PageLinkEnds(host: string, sec: Section, id: string, more: string)
    requires host != [] && host[0] == 'h'
    requires id != [] && AllAlnum(id)
    requires more == [] || !IsSpace(more[|more| - 1])
    ensures var s := host + (SectionText(sec) + id + more); !IsSpace(s[0]) && !IsSpace(s[|s| - 1])
  {
    var s := host + (SectionText(sec) + id + more);
    assert s[0] == 'h';
    if more == [] {
      assert s[|s| - 1] == id[|id| - 1] && IsAlnum(id[|id| - 1]);
    } else {
      assert s[|s| - 1] == more[|more| - 1];
    }
  }

  /** Input that starts with no Imgur host and is no bare id matches none of the patterns,
      so it is kept exactly when it is an http(s) URL. */
  lemma NoPatternPassesThrough(s: string, isHttpUrl: UrlCheck)
    requires s != [] && !IsSpace(s[0]) && !IsSpace(s[|s| - 1])
    requires forall p :: p in DirectHosts ==> !StartsWith(LowerAscii(s), p)
    requires forall secure: bool, www: bool :: !StartsWith(s, PageHost(secure, www))
    requires !(5 <= |s| <= 10 && AllAlnum(s))
    ensures ImgurId(s).None?
    ensures FormatImgurUrl(s, isHttpUrl) == if isHttpUrl(s) then Some(s) else None
  {
    assert "https://i.imgur.com/" in DirectHosts && "http://i.imgur.com/" in DirectHosts;
    if PagePrefixLength(s) != 0 {
      var secure, www := PagePrefixLengthSound(s);
      assert StartsWith(s, PageHost(secure, www));
      assert false;
    }
    TrimmedIsFixed(s);
  }
}
