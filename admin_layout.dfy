// The back office's layout: the normalised current path, which sidebar
// link is highlighted, the page and tab titles, the accordions that open on
// their routes, the sidebar and theme preferences, the session-expired
// dialog and the user name loaded for the header.
module AdminLayout {
  import opened Wrappers
  import opened Strings
  import opened AuthProvider
  import ApiClient

  const DesktopWidth := 1280
  const SidebarKey := "sidebarCollapsed"
  const ThemeKey := "backoffice-theme"
  const DefaultUserName := "관리자"
  const LoginPath := "/login"

  // ---------------------------------------------------------------------
  // Paths
  // ---------------------------------------------------------------------

  /** `pathname.replace(/\/$/, "") || "/"`: one trailing '/' goes, and the
      empty path is the root. */
  function CurrentPath(pathname: string): (r: string)
    ensures r != []
    ensures pathname == [] || pathname == "/" ==> r == "/"
    ensures |pathname| > 1 && pathname[|pathname| - 1] == '/' ==> r == pathname[..|pathname| - 1]
    ensures pathname != [] && pathname[|pathname| - 1] != '/' ==> r == pathname
  {
    var stripped := if pathname != [] && pathname[|pathname| - 1] == '/' then pathname[..|pathname| - 1] else pathname;
    if stripped == [] then "/" else stripped
  }

  /** Only one slash is stripped: a path that does not end in "//" comes
      out as the root or without a trailing slash. */
  lemma CurrentPathNoTrailingSlash(pathname: string)
    requires !EndsWith(pathname, "//")
    ensures CurrentPath(pathname) == "/" || CurrentPath(pathname)[|CurrentPath(pathname)| - 1] != '/'
  {
    var n := |pathname|;
    if n > 1 && pathname[n - 1] == '/' {
      assert pathname[n - 2..] == [pathname[n - 2], pathname[n - 1]];
    }
  }

  /** `/^\/posts\/[^/]+$/`: one segment under /posts. */
  predicate PostDetailPath(p: string)
  {
    |p| > 7 && StartsWith(p, "/posts/") && '/' !in p[7..]
  }

  /** `/^\/posts\/[^/]+\/edit$/`. */
  predicate PostEditPath(p: string)
  {
    |p| > 12 && StartsWith(p, "/posts/") && EndsWith(p, "/edit") && '/' !in p[7..|p| - 5]
  }

  /** The characters `.` does not match. */
  predicate LineTerminator(c: char)
  {
    c == '\n' || c == '\r' || c == '\U{2028}' || c == '\U{2029}'
  }

  /** `/^<prefix>.+/`: something follows the prefix. */
  predicate Below(p: string, prefix: string)
  {
    |p| > |prefix| && StartsWith(p, prefix) && !LineTerminator(p[|prefix|])
  }

  // ---------------------------------------------------------------------
  // The highlighted link
  // ---------------------------------------------------------------------

  /** The pages under /posts that have links or titles of their own. */
  predicate PostsSubpage(p: string)
  {
    p == "/posts/new" || p == "/posts/categories" || p == "/posts/prefixes"
  }

  /** isActive: the post list link is lit on the list and on a post's own
      page, not on the other pages under /posts nor on any edit page; every
      other link is lit exactly on its normalised path. */
  function IsActive(href: string, currentPath: string): (r: bool)
    ensures CurrentPath(href) == "/posts" ==>
      (r <==> currentPath == "/posts" ||
              (PostDetailPath(currentPath) && !PostsSubpage(currentPath) && !EndsWith(currentPath, "/edit")))
    ensures CurrentPath(href) != "/posts" ==> (r <==> currentPath == CurrentPath(href))
  {
    var navPath := CurrentPath(href);
    if navPath == "/posts" then
      if PostsSubpage(currentPath) || EndsWith(currentPath, "/edit") then false
      else currentPath == "/posts" || PostDetailPath(currentPath)
    else currentPath == navPath
  }

  /** The post list link is dark on the other post pages and on every
      page whose path ends in /edit. */
  lemma PostsLinkOffSubpages(currentPath: string)
    requires PostsSubpage(currentPath) || EndsWith(currentPath, "/edit")
    ensures !IsActive("/posts", currentPath)
  {
    assert CurrentPath("/posts") == "/posts";
  }

  /** It is lit on the page of any post whose id is not one of the words
      the other pages use. */
  lemma PostsLinkOnPost(id: string)
    requires id != [] && '/' !in id
    requires id != "new" && id != "categories" && id != "prefixes" && id != "edit"
    ensures IsActive("/posts", "/posts/" + id)
  {
    assert CurrentPath("/posts") == "/posts";
    var p := "/posts/" + id;
    assert p[..7] == "/posts/" && p[7..] == id;
    NoSubpageId(id);
    NoEditSuffix(id);
  }

  /** The three other pages under /posts are reached only through their
      own words. */
  lemma NoSubpageId(id: string)
    requires id != "new" && id != "categories" && id != "prefixes"
    ensures !PostsSubpage("/posts/" + id)
  {
    var p := "/posts/" + id;
    assert p[7..] == id;
    assert p == "/posts/new" ==> id == "new";
    assert p == "/posts/categories" ==> id == "categories";
    assert p == "/posts/prefixes" ==> id == "prefixes";
  }

  /** A single segment ends in "/edit" only when it is "edit" itself. */
  lemma NoEditSuffix(id: string)
    requires id != [] && '/' !in id && id != "edit"
    ensures !EndsWith("/posts/" + id, "/edit")
  {
    var p := "/posts/" + id;
    var n := |p|;
    if |id| == 4 {
      assert p[n - 5..] == "/" + id;
      assert ("/" + id)[1..] == id;
    } else if |id| > 4 {
      assert p[n - 5] == id[|id| - 5];
      assert id[|id| - 5] in id;
      assert p[n - 5..][0] == p[n - 5];
    } else {
      assert p[n - 5] == "/posts/"[n - 5];
      assert p[n - 5..][0] == p[n - 5];
    }
  }

  /** The sidebar's links, in order. */
  const NavLinks: seq<string> := ["/", "/posts", "/posts/categories", "/posts/prefixes", "/messages", "/projects", "/careers"]

  /** At most one sidebar link is lit on any page. */
  lemma OneLinkLit(currentPath: string, i: nat, j: nat)
    requires i < j < |NavLinks|
    ensures !(IsActive(NavLinks[i], currentPath) && IsActive(NavLinks[j], currentPath))
  {
    NavLinkNormal(i);
    NavLinkNormal(j);
    if i == 1 {
      if IsActive(NavLinks[j], currentPath) {
        PostsLinkOffOtherLinks(j);
      }
    }
  }

  /** Every sidebar link is already a normalised path. */
  lemma NavLinkNormal(k: nat)
    requires k < |NavLinks|
    ensures CurrentPath(NavLinks[k]) == NavLinks[k]
  {
  }

  /** The post list link is dark on the pages of the links after it. */
  lemma PostsLinkOffOtherLinks(k: nat)
    requires 2 <= k < |NavLinks|
    ensures !IsActive("/posts", NavLinks[k])
  {
    assert CurrentPath("/posts") == "/posts";
    if k >= 4 {
      assert NavLinks[k][..7][2] == NavLinks[k][2] != "/posts/"[2];
    }
  }

  // ---------------------------------------------------------------------
  // Titles
  // ---------------------------------------------------------------------

  /** getPageTitle's table of exact paths. */
  function TableTitle(p: string): (r: Option<string>)
    ensures r.Some? ==> r.value != []
  {
    if p == "/" then Some("대시보드")
    else if p == "/posts" then Some("포스트 목록")
    else if p == "/posts/new" then Some("새 포스트")
    else if p == "/posts/categories" then Some("카테고리 관리")
    else if p == "/posts/prefixes" then Some("말머리 관리")
    else if p == "/messages" then Some("메시지 관리")
    else if p == "/careers" then Some("경력 관리")
    else if p == "/careers/new" then Some("경력 등록")
    else if p == "/projects" then Some("프로젝트 관리")
    else if p == "/projects/new" then Some("프로젝트 등록")
    else if p == "/notifications" then Some("알림")
    else None
  }

  /** getPageTitle: the table first, then the edit and detail patterns
      under /posts, then anything below /careers or /projects, else the
      brand name. */
  function PageTitle(p: string): (r: string)
    ensures r != []
    ensures TableTitle(p).Some? ==> r == TableTitle(p).value
  {
    match TableTitle(p)
    case Some(t) => t
    case None =>
      if PostEditPath(p) then "포스트 수정"
      else if PostDetailPath(p) then "포스트 보기"
      else if Below(p, "/careers/") then "경력 관리"
      else if Below(p, "/projects/") then "프로젝트 관리"
      else "JUNGEUI LAB"
  }

  /** A post's edit page is titled as such, whatever its id. */
  lemma EditPageTitle(id: string)
    requires id != [] && '/' !in id
    ensures PageTitle("/posts/" + id + "/edit") == "포스트 수정"
  {
    var p := "/posts/" + id + "/edit";
    assert p[..7] == "/posts/" && p[|p| - 5..] == "/edit" && p[7..|p| - 5] == id;
    NotInTable(p, |p| - 5);
  }

  /** A path under /posts with a second '/' is in no table row. */
  lemma NotInTable(p: string, k: nat)
    requires 7 < k < |p| && p[k] == '/' && StartsWith(p, "/posts/")
    ensures TableTitle(p).None?
  {
    assert p[..7] == "/posts/";
    assert p[1] == 'p' && p[2] == 'o';
    assert |p| != 10 || p[k] != "/posts/new"[k];
    assert |p| != 17 || p[k] != "/posts/categories"[k];
    assert |p| != 15 || p[k] != "/posts/prefixes"[k];
  }

  /** A path of one segment under /posts, other than the three pages with
      table rows, is in no table row. */
  lemma DetailNotInTable(p: string)
    requires PostDetailPath(p) && !PostsSubpage(p)
    ensures TableTitle(p).None?
  {
    assert p[..7] == "/posts/";
    assert p[1] == 'p' && p[2] == 'o';
  }

  /** A post's own page is titled as a post view, unless its id is one of
      the words the table claims. */
  lemma PostPageTitle(id: string)
    requires id != [] && '/' !in id
    requires id != "new" && id != "categories" && id != "prefixes"
    ensures PageTitle("/posts/" + id) == "포스트 보기"
  {
    var p := "/posts/" + id;
    assert p[..7] == "/posts/" && p[7..] == id;
    NoSubpageId(id);
    DetailNotInTable(p);
    assert !PostEditPath(p) by {
      if |p| > 12 {
        NoEditSuffix(id);
      }
    }
  }

  /** Any page below /careers other than the new-career form is titled as
      the career list. */
  lemma CareerPageTitle(rest: string)
    requires rest != [] && rest != "new" && !LineTerminator(rest[0])
    ensures PageTitle("/careers/" + rest) == "경력 관리"
  {
    var p := "/careers/" + rest;
    assert p[..9] == "/careers/" && p[9..] == rest && p[1] == 'c';
    assert p == "/careers/new" ==> rest == "new";
    assert !StartsWith(p, "/posts/") by {
      assert p[..7][1] == 'c';
    }
  }

  /** The tab title: fixed on the dashboard, else the page title with the
      back office's suffix. */
  function DocumentTitle(p: string): (r: string)
    ensures p == "/" ==> r == "정의랩 관리자"
    ensures p != "/" ==> r == PageTitle(p) + " | 관리자" && EndsWith(r, " | 관리자")
  {
    if p == "/" then "정의랩 관리자" else PageTitle(p) + " | 관리자"
  }

  // ---------------------------------------------------------------------
  // Accordions and width
  // ---------------------------------------------------------------------

  /** The routes on which the post accordion opens. */
  predicate PostsRoute(p: string)
  {
    p == "/posts" || p == "/posts/new" || p == "/posts/categories" || PostDetailPath(p) || PostEditPath(p)
  }

  /** The routes on which the about accordion opens. */
  predicate AboutRoute(p: string)
  {
    p == "/messages" || p == "/careers" || p == "/projects"
  }

  /** Every page that lights a link of the post accordion opens it. */
  lemma PostsLinksOpenPosts(p: string)
    requires IsActive("/posts", p) || IsActive("/posts/categories", p) || IsActive("/posts/prefixes", p)
    ensures PostsRoute(p)
  {
    assert CurrentPath("/posts") == "/posts";
    assert CurrentPath("/posts/categories") == "/posts/categories";
    assert CurrentPath("/posts/prefixes") == "/posts/prefixes";
    if p == "/posts/prefixes" {
      assert p[..7] == "/posts/" && p[7..] == "prefixes";
    }
  }

  predicate IsDesktop(width: int)
  {
    width >= DesktopWidth
  }

  /** The saved form of the sidebar flag. */
  function FlagText(b: bool): (r: string)
    ensures r == "true" || r == "false"
  {
    if b then "true" else "false"
  }

  function ThemeText(dark: bool): (r: string)
    ensures r == "dark" || r == "light"
  {
    if dark then "dark" else "light"
  }

  /** What a reload reads back is what was saved. */
  lemma PreferencesRoundTrip(b: bool)
    ensures (Some(FlagText(b)) == Some("true")) == b
    ensures (Some(ThemeText(b)) == Some("dark")) == b
  {
    if !b {
      assert FlagText(b)[0] != "true"[0];
      assert ThemeText(b)[0] != "dark"[0];
    }
  }

  // ---------------------------------------------------------------------
  // The user name
  // ---------------------------------------------------------------------

  /** `name ?? nickname ?? email`. */
  function DisplayName(u: UserJson): (r: Option<string>)
    ensures u.name.Some? ==> r == u.name
    ensures u.name.None? && u.nickname.Some? ==> r == u.nickname
    ensures u.name.None? && u.nickname.None? ==> r == u.email
  {
    if u.name.Some? then u.name else if u.nickname.Some? then u.nickname else u.email
  }

  /** The name the stored user gives, else the one already shown. */
  function StoredName(raw: Option<string>, parse: string -> Option<UserJson>, shown: string): (r: string)
    ensures !Truthy(raw) || parse(raw.value).None? ==> r == shown
    ensures Truthy(raw) && parse(raw.value).Some? && !Truthy(DisplayName(parse(raw.value).value)) ==> r == shown
    ensures Truthy(raw) && parse(raw.value).Some? && Truthy(DisplayName(parse(raw.value).value)) ==>
      Some(r) == DisplayName(parse(raw.value).value)
  {
    if !Truthy(raw) then shown
    else match parse(raw.value)
      case None => shown
      case Some(u) => var d := DisplayName(u); if Truthy(d) then d.value else shown
  }

  /** JSON.parse reads back what JSON.stringify writes, and an object is
      never written as the empty string. */
  ghost predicate JsonRoundTrip(parse: string -> Option<UserJson>, stringify: UserJson -> string)
  {
    forall u :: parse(stringify(u)) == Some(u) && stringify(u) != []
  }

  /** The saved user carries the display name, so getIdentity reports it. */
  lemma SavedNameIsFullName(u: UserJson)
    requires Truthy(DisplayName(u))
    ensures FullName(u.(name := DisplayName(u))) == DisplayName(u)
  {
  }

  class Layout {
    var width: int
    var currentPath: string
    var userName: string
    var postsOpen: bool
    var aboutOpen: bool
    var sidebarCollapsed: bool
    var mobileOverlayOpen: bool
    var isDark: bool
    var sessionExpiredOpen: bool

    /** The first render and its effects: the saved preferences are read,
        and the current route opens its accordion. */
    constructor (width: int, pathname: string, storage: WebStorage)
      ensures this.width == width && currentPath == CurrentPath(pathname) && userName == DefaultUserName
      ensures sidebarCollapsed == (Item(storage.local, SidebarKey) == Some("true"))
      ensures isDark == (Item(storage.local, ThemeKey) == Some("dark"))
      ensures postsOpen == PostsRoute(currentPath) && aboutOpen == AboutRoute(currentPath)
      ensures !mobileOverlayOpen && !sessionExpiredOpen
    {
      this.width := width;
      currentPath := CurrentPath(pathname);
      userName := DefaultUserName;
      sidebarCollapsed := Item(storage.local, SidebarKey) == Some("true");
      isDark := Item(storage.local, ThemeKey) == Some("dark");
      postsOpen := PostsRoute(CurrentPath(pathname));
      aboutOpen := AboutRoute(CurrentPath(pathname));
      mobileOverlayOpen := false;
      sessionExpiredOpen := false;
    }

    /** A route change: the accordions of the new route open, and none is
        ever closed by it. */
    method Navigate(pathname: string)
      modifies this`currentPath, this`postsOpen, this`aboutOpen
      ensures currentPath == CurrentPath(pathname)
      ensures postsOpen == (old(postsOpen) || PostsRoute(currentPath))
      ensures aboutOpen == (old(aboutOpen) || AboutRoute(currentPath))
      ensures old(postsOpen) ==> postsOpen
      ensures old(aboutOpen) ==> aboutOpen
    {
      currentPath := CurrentPath(pathname);
      if PostsRoute(currentPath) {
        postsOpen := true;
      }
      if AboutRoute(currentPath) {
        aboutOpen := true;
      }
    }

    /** A click on an accordion's header. */
    method TogglePosts()
      modifies this`postsOpen
      ensures postsOpen == !old(postsOpen)
    {
      postsOpen := !postsOpen;
    }

    method ToggleAbout()
      modifies this`aboutOpen
      ensures aboutOpen == !old(aboutOpen)
    {
      aboutOpen := !aboutOpen;
    }

    /** A resize: reaching the desktop width closes the overlay. */
    method Resize(w: int)
      modifies this`width, this`mobileOverlayOpen
      ensures width == w
      ensures IsDesktop(w) ==> !mobileOverlayOpen
      ensures !IsDesktop(w) ==> mobileOverlayOpen == old(mobileOverlayOpen)
    {
      width := w;
      if IsDesktop(w) {
        mobileOverlayOpen := false;
      }
    }

    /** The sidebar is narrow only when collapsed on a desktop. */
    function SidebarWidth(): (r: string)
      reads this
      ensures r == (if IsDesktop(width) && sidebarCollapsed then "4rem" else "15rem")
    {
      if IsDesktop(width) then (if sidebarCollapsed then "4rem" else "15rem") else "15rem"
    }

    /** The accordions are shown as single links only when collapsed on a
        desktop. */
    predicate SectionsAsLinks()
      reads this
    {
      IsDesktop(width) && sidebarCollapsed
    }

    /** The collapsed about section is lit on any of its three pages. */
    predicate AboutLinkLit()
      reads this
    {
      IsActive("/messages", currentPath) || AboutRoute(currentPath)
    }

    method ToggleOverlay()
      modifies this`mobileOverlayOpen
      ensures mobileOverlayOpen == !old(mobileOverlayOpen)
    {
      mobileOverlayOpen := !mobileOverlayOpen;
    }

    method CloseOverlay()
      modifies this`mobileOverlayOpen
      ensures !mobileOverlayOpen
    {
      mobileOverlayOpen := false;
    }

    /** The collapse button; the flag is saved on desktops only. */
    method ToggleSidebar(storage: WebStorage)
      modifies this`sidebarCollapsed, storage`local
      ensures sidebarCollapsed == !old(sidebarCollapsed)
      ensures IsDesktop(width) ==> storage.local == old(storage.local)[SidebarKey := FlagText(sidebarCollapsed)]
      ensures !IsDesktop(width) ==> storage.local == old(storage.local)
    {
      sidebarCollapsed := !sidebarCollapsed;
      if IsDesktop(width) {
        storage.local := storage.local[SidebarKey := FlagText(sidebarCollapsed)];
      }
    }

    /** The theme button; the theme is always saved. */
    method ToggleTheme(storage: WebStorage)
      modifies this`isDark, storage`local
      ensures isDark == !old(isDark)
      ensures storage.local == old(storage.local)[ThemeKey := ThemeText(isDark)]
    {
      isDark := !isDark;
      storage.local := storage.local[ThemeKey := ThemeText(isDark)];
    }

    /** The 'session-expired' event opens the dialog. */
    method SessionExpired()
      modifies this`sessionExpiredOpen
      ensures sessionExpiredOpen
    {
      sessionExpiredOpen := true;
    }

    /** The dialog's confirm button: close it, re-arm the client's event
        and go to the login page. */
    method ConfirmSessionExpired(client: ApiClient.Client) returns (target: string)
      modifies this`sessionExpiredOpen, client`sessionExpiredDispatched, client`eventsSinceReset
      ensures !sessionExpiredOpen && client.Valid() && !client.sessionExpiredDispatched
      ensures target == LoginPath
    {
      sessionExpiredOpen := false;
      client.ResetSessionExpiredFlag();
      target := LoginPath;
    }

    /** The logout item: the auth is cleared and the login page follows. */
    method Logout(storage: WebStorage) returns (target: string)
      modifies storage
      ensures storage.CheckAuth().Rejected?
      ensures target == LoginPath
    {
      var _ := storage.Logout();
      target := LoginPath;
    }

    /** loadUserInfo: the stored user's name is shown first; then /api/auth/me
        (`me`, None when it fails) decides. A display name from it is shown
        and saved next to the token (sessionStorage when the token lives
        there, else localStorage); a failure removes the stored user from
        both. */
    method LoadUserInfo(storage: WebStorage, parse: string -> Option<UserJson>, stringify: UserJson -> string,
                        me: Option<UserJson>)
      modifies this`userName, storage
      ensures me.Some? && Truthy(DisplayName(me.value)) ==>
        userName == DisplayName(me.value).value &&
        var payload := stringify(me.value.(name := DisplayName(me.value)));
        if Truthy(Item(old(storage.session), TokenKey))
        then storage.session == old(storage.session)[UserKey := payload] && storage.local == old(storage.local)
        else storage.local == old(storage.local)[UserKey := payload] && storage.session == old(storage.session)
      ensures me.Some? && !Truthy(DisplayName(me.value)) ==>
        userName == StoredName(old(storage.User()), parse, old(userName)) &&
        storage.local == old(storage.local) && storage.session == old(storage.session)
      ensures me.None? ==>
        userName == StoredName(old(storage.User()), parse, old(userName)) &&
        storage.local == old(storage.local) - {UserKey} && storage.session == old(storage.session) - {UserKey}
      ensures (me.Some? && Truthy(DisplayName(me.value)) && JsonRoundTrip(parse, stringify) &&
               (!Truthy(Item(old(storage.session), TokenKey)) || !Truthy(Item(old(storage.local), UserKey)))) ==>
        storage.GetIdentity(parse) == Some(Identity(me.value.id, DisplayName(me.value)))
    {
      userName := StoredName(storage.User(), parse, userName);
      if me.None? {
        storage.local := storage.local - {UserKey};
        storage.session := storage.session - {UserKey};
        return;
      }
      var d := DisplayName(me.value);
      if !Truthy(d) {
        return;
      }
      userName := d.value;
      var saved := me.value.(name := d);
      var payload := stringify(saved);
      if Truthy(Item(storage.session, TokenKey)) {
        storage.session := storage.session[UserKey := payload];
      } else {
        storage.local := storage.local[UserKey := payload];
      }
      SavedNameIsFullName(me.value);
    }
  }
}
