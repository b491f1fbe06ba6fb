/** The browser's hash routes: `#/view` and `#/chat/<session>`, parsed and printed. */
module HashRoutes {
  import opened Wrappers
  import opened Sequences
  import opened PercentEncoding

  datatype AppView =
    | Home | Chat | Projects | Knowledge | Approvals | Playbooks | Team | Channels
    | Tools | Artifacts | Health | Admin | UiPrimitives

  function Name(view: AppView): string {
    match view
    case Home => "home"
    case Chat => "chat"
    case Projects => "projects"
    case Knowledge => "knowledge"
    case Approvals => "approvals"
    case Playbooks => "playbooks"
    case Team => "team"
    case Channels => "channels"
    case Tools => "tools"
    case Artifacts => "artifacts"
    case Health => "health"
    case Admin => "admin"
    case UiPrimitives => "ui-primitives"
  }

  const AppViews := [Home, Chat, Projects, Knowledge, Approvals, Playbooks, Team, Channels, Tools, Artifacts, Health, Admin, UiPrimitives]

  datatype Target = View(view: AppView) | Settings

  function FindName(views: seq<AppView>, name: string): Option<Target> {
    if views == [] then None
    else if Name(views[0]) == name then Some(View(views[0]))
    else FindName(views[1..], name)
  }

  function NormalizeAppView(name: string): Option<Target> {
    if name == "settings" then Some(Settings) else FindName(AppViews, name)
  }

  datatype Parsed = Parsed(view: Option<AppView>, sessionId: Option<string>)

  const Nowhere := Parsed(None, None)

  function Split(s: string): (parts: seq<string>)
    ensures parts != []
  {
    if s == "" then [""]
    else
      var rest := Split(s[1..]);
      if s[0] == '/' then [""] + rest else [[s[0]] + rest[0]] + rest[1..]
  }

  function ParseAppHash(hash: string, devMode: bool): Parsed {
    var raw := if hash != "" && hash[0] == '#' then hash[1..] else hash;
    if raw == "" || raw == "/" then Parsed(Some(Home), None)
    else if raw[0] != '/' then Nowhere
    else ParseSegments(Split(raw[1..]), devMode)
  }

  function ParseSegments(segments: seq<string>, devMode: bool): Parsed
    requires segments != []
  {
    if segments[0] == "chat" then
      if |segments| != 2 || segments[1] == "" then Nowhere
      else
        var sessionId := Decode(segments[1]);
        if sessionId.None? || sessionId.value == "" then Nowhere else Parsed(Some(Chat), sessionId)
    else if |segments| != 1 then Nowhere
    else
      var target := NormalizeAppView(segments[0]);
      if target.None? || target.value.Settings? then Nowhere
      else if target.value.view == UiPrimitives && !devMode then Nowhere
      else Parsed(Some(target.value.view), None)
  }

  function AppHashFor(view: AppView, sessionId: Option<string>): string {
    if view == Chat && sessionId.Some? && sessionId.value != "" then "#/chat/" + Encode(sessionId.value)
    else "#/" + Name(view)
  }

  // ----- Segments --------------------------------------------------------------------------------

  predicate HasNoSlash(s: string) {
    forall i :: 0 <= i < |s| ==> s[i] != '/'
  }

  lemma {:induction false} SplitPlain(s: string)
    requires HasNoSlash(s)
    ensures Split(s) == [s]
  {
    if s != "" {
      SplitPlain(s[1..]);
      HeadAndTail(s);
    }
  }

  lemma {:induction false} SplitAtSlash(a: string, b: string)
    requires HasNoSlash(a)
    ensures Split(a + ("/" + b)) == [a] + Split(b)
  {
    var text := a + ("/" + b);
    if a == "" {
      assert text[1..] == b;
    } else {
      SplitAtSlash(a[1..], b);
      assert text[1..] == a[1..] + ("/" + b);
      HeadAndTail(a);
    }
  }

  lemma NamesArePlain(view: AppView)
    ensures HasNoSlash(Name(view)) && Name(view) != "" && Name(view) != "settings"
    ensures Name(view) == "chat" <==> view == Chat
  {
  }

  lemma NameDeterminesView(v: AppView, w: AppView)
    requires Name(v) == Name(w)
    ensures v == w
  {
    assert |Name(v)| == |Name(w)| && Name(v)[0] == Name(w)[0] && Name(v)[1] == Name(w)[1];
  }

  lemma {:induction false} FindNameFinds(views: seq<AppView>, view: AppView)
    requires view in views
    ensures FindName(views, Name(view)) == Some(View(view))
  {
    if Name(views[0]) == Name(view) {
      NameDeterminesView(views[0], view);
    } else {
      FindNameFinds(views[1..], view);
    }
  }

  lemma EveryViewIsListed(view: AppView)
    ensures view in AppViews
  {
    var i := match view
      case Home => 0 case Chat => 1 case Projects => 2 case Knowledge => 3 case Approvals => 4 case Playbooks => 5 case Team => 6
      case Channels => 7 case Tools => 8 case Artifacts => 9 case Health => 10 case Admin => 11 case UiPrimitives => 12;
    assert AppViews[i] == view;
  }

  lemma NormalizeFindsView(view: AppView)
    ensures NormalizeAppView(Name(view)) == Some(View(view))
  {
    NamesArePlain(view);
    EveryViewIsListed(view);
    FindNameFinds(AppViews, view);
  }

  // ----- Round trips -----------------------------------------------------------------------------

  lemma ParsePlainView(view: AppView, devMode: bool)
    ensures ParseAppHash("#/" + Name(view), devMode)
         == if view == Chat || (view == UiPrimitives && !devMode) then Nowhere else Parsed(Some(view), None)
  {
    var hash := "#/" + Name(view);
    NamesArePlain(view);
    assert hash[1..] == "/" + Name(view) && hash[1..][1..] == Name(view);
    SplitPlain(Name(view));
    NormalizeFindsView(view);
  }

  lemma ParseChat(sessionId: string, devMode: bool)
    requires sessionId != ""
    ensures ParseAppHash("#/chat/" + Encode(sessionId), devMode) == Parsed(Some(Chat), Some(sessionId))
  {
    var encoded := Encode(sessionId);
    var hash := "#/chat/" + encoded;
    assert hash[1..][1..] == "chat" + ("/" + encoded);
    EncodedHasNoSeparator(sessionId);
    SplitAtSlash("chat", encoded);
    SplitPlain(encoded);
    EncodeRoundTrip(sessionId);
  }

  /** The routes that can be bookmarked: chats with a session, and the other views without one. */
  predicate IsRoutable(view: AppView, sessionId: Option<string>, devMode: bool) {
    if view == Chat then sessionId.Some? && sessionId.value != ""
    else sessionId.None? && (view == UiPrimitives ==> devMode)
  }

  /** Parsing the printed route gives it back exactly when it is routable. */
  lemma RouteRoundTrip(view: AppView, sessionId: Option<string>, devMode: bool)
    ensures ParseAppHash(AppHashFor(view, sessionId), devMode) == Parsed(Some(view), sessionId) <==> IsRoutable(view, sessionId, devMode)
  {
    if view == Chat && sessionId.Some? && sessionId.value != "" {
      ParseChat(sessionId.value, devMode);
    } else {
      ParsePlainView(view, devMode);
    }
  }

  lemma ParsedIsRoutable(hash: string, devMode: bool)
    ensures var parsed := ParseAppHash(hash, devMode);
            if parsed.view.Some? then IsRoutable(parsed.view.value, parsed.sessionId, devMode) else parsed == Nowhere
  {
    var raw := if hash != "" && hash[0] == '#' then hash[1..] else hash;
    if raw != "" && raw != "/" && raw[0] == '/' {
      var segments := Split(raw[1..]);
      if segments[0] != "chat" {
        FoundNameMatches(AppViews, segments[0]);
      }
    }
  }

  lemma {:induction false} FoundNameMatches(views: seq<AppView>, name: string)
    ensures FindName(views, name).Some? ==> FindName(views, name).value.View? && Name(FindName(views, name).value.view) == name
  {
    if views != [] && Name(views[0]) != name {
      FoundNameMatches(views[1..], name);
    }
  }

  // ----- Which hashes lead somewhere -------------------------------------------------------------

  function Join(parts: seq<string>): string
    requires parts != []
  {
    if |parts| == 1 then parts[0] else parts[0] + ("/" + Join(parts[1..]))
  }

  /** The segments are the pieces between the slashes. */
  lemma {:induction false} SplitIsExact(s: string)
    ensures Join(Split(s)) == s
    ensures forall i :: 0 <= i < |Split(s)| ==> HasNoSlash(Split(s)[i])
  {
    if s != "" {
      SplitIsExact(s[1..]);
      HeadAndTail(s);
      var rest := Split(s[1..]);
      if s[0] != '/' && |rest| > 1 {
        AppendIsAssociative([s[0]], rest[0], "/" + Join(rest[1..]));
      }
    }
  }

  lemma ParseOneSegment(name: string, view: AppView, devMode: bool)
    requires name != "chat"
    ensures ParseSegments([name], devMode) == Parsed(Some(view), None)
       <==> view != Chat && name == Name(view) && (view == UiPrimitives ==> devMode)
  {
    FoundNameMatches(AppViews, name);
    NormalizeFindsView(view);
    NamesArePlain(view);
  }

  /** One slash-free segment after `chat/`, which decodes to the session id. */
  predicate IsChatPath(path: string, sessionId: Option<string>) {
    && sessionId.Some? && sessionId.value != "" && |path| > 5 && path[..5] == "chat/"
    && HasNoSlash(path[5..]) && Decode(path[5..]) == sessionId
  }

  /**
   * Exactly the empty hash, `#`, `/` and `#/` lead home besides home's own hash; every other view is
   * reached by its name alone, the primitives page in development only; and a chat by one segment
   * without slashes that decodes to a non-empty session id. Nothing else leads anywhere.
   */
  lemma AcceptsExactly(hash: string, devMode: bool, view: AppView, sessionId: Option<string>)
    ensures var raw := if hash != "" && hash[0] == '#' then hash[1..] else hash;
            ParseAppHash(hash, devMode) == Parsed(Some(view), sessionId) <==> (
              || (view == Home && sessionId.None? && (raw == "" || raw == "/"))
              || (view != Chat && sessionId.None? && raw == "/" + Name(view) && (view == UiPrimitives ==> devMode))
              || (view == Chat && raw != "" && raw[0] == '/' && IsChatPath(raw[1..], sessionId)))
  {
    var raw := if hash != "" && hash[0] == '#' then hash[1..] else hash;
    NamesArePlain(view);
    if raw != "" && raw != "/" && raw[0] == '/' {
      HeadAndTail(raw);
      AcceptsPath(raw[1..], devMode, view, sessionId);
      assert raw == "/" + Name(view) <==> raw[1..] == Name(view);
    }
  }

  lemma ChatPathHasSlash(path: string, sessionId: Option<string>)
    ensures IsChatPath(path, sessionId) ==> !HasNoSlash(path)
  {
    if |path| > 5 && path[..5] == "chat/" {
      var start := path[..5];
      assert path[4] == start[4] == '/';
    }
  }

  lemma AcceptsPlainPath(path: string, devMode: bool, view: AppView, sessionId: Option<string>)
    requires HasNoSlash(path)
    ensures ParseSegments([path], devMode) == Parsed(Some(view), sessionId)
       <==> view != Chat && sessionId.None? && path == Name(view) && (view == UiPrimitives ==> devMode)
    ensures !IsChatPath(path, sessionId)
  {
    if path == "chat" {
      NamesArePlain(view);
    } else {
      ParseOneSegment(path, view, devMode);
    }
    ChatPathHasSlash(path, sessionId);
  }

  lemma ChatPathHead(head: string, rest: string)
    requires HasNoSlash(head)
    requires var path := head + ("/" + rest); |path| > 5 && path[..5] == "chat/"
    ensures head == "chat"
  {
    var path := head + ("/" + rest);
    var start := path[..5];
    assert start[4] == '/' && start[0] == 'c' && start[1] == 'h' && start[2] == 'a' && start[3] == 't';
    assert path[|head|] == '/';
    assert |head| == 4;
    assert head == path[..4];
  }

  lemma AcceptsDeepPath(head: string, rest: string, devMode: bool, view: AppView, sessionId: Option<string>)
    requires HasNoSlash(head)
    ensures var path := head + ("/" + rest);
            ParseSegments(Split(path), devMode) == Parsed(Some(view), sessionId) <==> view == Chat && IsChatPath(path, sessionId)
  {
    var path := head + ("/" + rest);
    SplitAtSlash(head, rest);
    SplitIsExact(rest);
    if |path| > 5 && path[..5] == "chat/" {
      ChatPathHead(head, rest);
    }
    if head == "chat" {
      assert path[..5] == "chat/" && path[5..] == rest;
      if HasNoSlash(rest) {
        SplitPlain(rest);
      }
    }
  }

  lemma AcceptsPath(path: string, devMode: bool, view: AppView, sessionId: Option<string>)
    ensures ParseSegments(Split(path), devMode) == Parsed(Some(view), sessionId) <==> (
              || (view != Chat && sessionId.None? && path == Name(view) && (view == UiPrimitives ==> devMode))
              || (view == Chat && IsChatPath(path, sessionId)))
  {
    var segments := Split(path);
    SplitIsExact(path);
    if |segments| == 1 {
      AcceptsPlainPath(path, devMode, view, sessionId);
    } else {
      NamesArePlain(view);
      AcceptsDeepPath(segments[0], Join(segments[1..]), devMode, view, sessionId);
      assert path[|segments[0]|] == '/';
    }
  }

  /** Every hash that leads somewhere leads to the same place after being printed again. */
  lemma AcceptedHashIsStable(hash: string, devMode: bool)
    requires ParseAppHash(hash, devMode).view.Some?
    ensures var parsed := ParseAppHash(hash, devMode);
            ParseAppHash(AppHashFor(parsed.view.value, parsed.sessionId), devMode) == parsed
  {
    var parsed := ParseAppHash(hash, devMode);
    ParsedIsRoutable(hash, devMode);
    RouteRoundTrip(parsed.view.value, parsed.sessionId, devMode);
  }

  /** Different routable routes have different hashes. */
  lemma HashDeterminesRoute(v: AppView, s: Option<string>, w: AppView, t: Option<string>, devMode: bool)
    requires IsRoutable(v, s, devMode) && IsRoutable(w, t, devMode) && AppHashFor(v, s) == AppHashFor(w, t)
    ensures v == w && s == t
  {
    RouteRoundTrip(v, s, devMode);
    RouteRoundTrip(w, t, devMode);
  }
}
