# jungeui.net CMS — a Dafny model

This project models the core of a blog and portfolio content-management system. The system has three parts:

- a FastAPI service over MySQL: the routers for posts, categories, post prefixes, tags, assets, careers and projects;
- a React back office: the category tree editor, post editor and list, career and project forms and lists, about messages, the API client, the auth provider and the admin layout;
- a public React client: the home listing, about page, post detail, project and career cards, and the API helpers.

Each core source file becomes one Dafny module. `Periods` and `Cards` gather the period formatting and the project and career cards of the client and back office, and `AdminRecords` holds helpers that careers.py and projects.py repeat. Database tables are sequences of rows held in classes whose methods are the endpoints (`PostsApi.PostStore`, `CategoriesApi.CategoryTable`, `CareersApi.CareerStore`, …). Page state that the source updates through setters is also a class (`CategoryPage.CategoryListPage`, `MessageList.MessageListPage`, `PostEditor.EditorState`, `ApiClient.Client`, `AuthProvider.WebStorage`). Pure helpers, such as slug derivation, period formatting, pagination and URL rewriting, are functions with lemmas about them.

Clock readings are integer seconds and are passed in. So are the answers of other services: the fetch outcome, the upload answer, the tag-create answer, JSON parsing and the window width. Strings are sequences of characters, and their lengths count characters, not UTF-16 units; letter case and whitespace follow ASCII, plus the Unicode spaces the source's trims remove.

Four shared modules have no counterpart in the source:

- `Wrappers`: the Option and Response types;
- `Strings`: trim, split, join, case and replace;
- `Sorting`: a stable insertion sort under a strict order, and code-point lexicographic order;
- `SearchParams`: the get, set and delete operations on URLSearchParams, per section 6.2 of the WHATWG URL standard.

The back-office category editor uses a corrected `moveNodeToParent`; see "## Findings".

## Model

| member | source | states |
|---|---|---|
| About.MaxIndex | apps/client/src/pages/About.jsx:106 | the last start position is `n - cols` when there are more projects than columns, else 0 |
| About.PrevIndex | apps/client/src/pages/About.jsx:228 | the left arrow steps back one position and never goes below 0 |
| About.NextIndex | apps/client/src/pages/About.jsx:237 | the right arrow steps on one position and never goes past maxIndex |
| About.ArrowsStayInRange | apps/client/src/pages/About.jsx:106-109 | an index in 0..maxIndex stays in range under either arrow, and an enabled arrow moves it by exactly one |
| About.Indicators | apps/client/src/pages/About.jsx:248-258 | no indicators unless the projects overflow the columns and maxIndex >= 1 (both ways); otherwise one indicator per start position 0..maxIndex |
| About.Columns | apps/client/src/pages/About.jsx:87-88 | one column below a window width of 768, otherwise three |
| About.AboutPage.constructor | apps/client/src/pages/About.jsx:20-29 | the page starts empty, at index 0, with three columns and the career modal closed |
| About.AboutPage.Loaded | apps/client/src/pages/About.jsx:42-58 | after a cancelled load nothing changes; otherwise each list of the expected shape is stored (messages cut to three, careers sorted latest first) and the others are kept |
| About.AboutPage.Resize | apps/client/src/pages/About.jsx:72-103 | with projects present the column count follows the window width and the index is left unchanged; with none nothing changes |
| About.AboutPage.Prev | apps/client/src/pages/About.jsx:228 | the index becomes PrevIndex of the old one |
| About.AboutPage.Next | apps/client/src/pages/About.jsx:237 | the index becomes NextIndex of the old one |
| About.AboutPage.Indicator | apps/client/src/pages/About.jsx:253 | pressing indicator i sets the index to i |
| About.AboutPage.OpenCareers | apps/client/src/pages/About.jsx:171 | the career modal opens and nothing else changes |
| About.AboutPage.CloseCareers | apps/client/src/pages/About.jsx:272 | the career modal closes and nothing else changes |
| About.ResizeKeepsStaleIndex | apps/client/src/pages/About.jsx:98-106 | a resize that raises the column count can leave the index above the new maxIndex |
| Periods.MonthDot | apps/backoffice/src/pages/careers/CareerList.jsx:9-14 | an empty date or one without '-' gives ''; with DotsOfMonth and DotsOfDay, a 'YYYY-MM' or 'YYYY-MM-DD' date gives 'YYYY.MM' |
| Periods.DayDot | apps/backoffice/src/pages/projects/ProjectList.jsx:10-15 | an empty date or one without '-' gives ''; with DotsOfMonth and DotsOfDay, a month gives 'YYYY.MM.01' and a day gives 'YYYY.MM.DD' |
| Periods.ShortDot | apps/client/src/components/ProjectCard.jsx:17-21 | an empty date or one without '-' gives ''; a 'YYYY-MM' month gives 'YY.MM.' |
| Periods.ModalDot | apps/client/src/components/CareerModal.jsx:20-24 | an empty date or one without '-' gives ''; a month or a day gives 'YYYY.MM' |
| Periods.SplitNoneWhenAbsent | apps/backoffice/src/pages/careers/CareerList.jsx:11-12 | splitting a date without '-' gives a single piece, so the two-piece branch is not taken |
| Periods.DotsOfMonth | apps/backoffice/src/pages/careers/CareerList.jsx:9-14 | the four formatters on 'YYYY-MM': 'YYYY.MM', 'YYYY.MM.01', 'YY.MM.' and 'YYYY.MM' |
| Periods.DotsOfDay | apps/backoffice/src/pages/projects/ProjectList.jsx:10-15 | the formatters on 'YYYY-MM-DD': 'YYYY.MM', 'YYYY.MM.DD' and 'YYYY.MM' |
| Periods.JoinPeriod | apps/backoffice/src/pages/careers/CareerList.jsx:17 | the non-empty ends joined by ' ~ ', or the fallback when both are empty |
| Periods.CareerListPeriod | apps/backoffice/src/pages/careers/CareerList.jsx:8-18 | never empty; a start without an end reads '… ~ (재직 중)'; nothing at all reads '-'; two ends read 'start ~ end' |
| Periods.ProjectPeriod | apps/backoffice/src/pages/projects/ProjectList.jsx:9-19 | never empty; a start without an end reads '… ~ (진행 중)'; nothing at all reads '-'; two ends read 'start ~ end' |
| Periods.CardPeriod | apps/client/src/components/ProjectCard.jsx:22-24 | empty exactly when neither end formats to anything; a start without an end reads '… ~ (진행중)' |
| Periods.ModalPeriod | apps/client/src/components/CareerModal.jsx:64-66 | empty exactly when the start formats to nothing; a missing end reads '(현재)' |
| Periods.BeforeIsStrict | apps/client/src/pages/About.jsx:11-18 | the careers' comparison (end date, 9999-12 for an ongoing career, then start date, both descending) is a strict order |
| Periods.SortLatestFirst | apps/client/src/pages/About.jsx:11-18 | the sorted copy holds the same careers |
| Periods.SortLatestFirstSorted | apps/client/src/pages/About.jsx:11-18 | the sorted copy is in order: no career is placed before one that should come earlier |
| Periods.OngoingFirst | apps/client/src/pages/About.jsx:13-15 | an ongoing career is never placed after one that ended before 9999-12 |
| Cards.LinkLessIsStrict | apps/client/src/components/ProjectCard.jsx:14 | comparing links by sort_order (0 when missing) is a strict order |
| Cards.Usable | apps/client/src/components/ProjectCard.jsx:13 | exactly the links whose URL is not blank |
| Cards.ShownLinks | apps/client/src/components/ProjectCard.jsx:12-15 | at most five usable links, as many as there are up to five, ordered by sort_order |
| Cards.AllLinksShownWhenFew | apps/client/src/components/ProjectCard.jsx:12-15 | with five usable links or fewer every one of them is shown |
| Cards.DroppedLinksComeLater | apps/client/src/components/ProjectCard.jsx:12-15 | a usable link left out has a sort order no smaller than any link shown |
| Cards.ProjectCardView | apps/client/src/components/ProjectCard.jsx:8-24 | the thumbnail URL or the favicon; the title cut to 25, the description to 100 and the tags to 6; the shown links; the card period |
| Cards.CardHeading | apps/client/src/components/ProjectCard.jsx:48 | the heading is never empty, and is the cut title when there is one |
| Cards.HighlightTexts | apps/client/src/components/CareerModal.jsx:71 | the non-empty highlight texts in order: one highlight gives HighlightText of it, and the texts of a + b are a's then b's |
| Cards.HighlightText | apps/client/src/components/CareerModal.jsx:71 | a highlight gives its content exactly when that is present and not empty, and nothing otherwise |
| Cards.HighlightTextsConcat | apps/client/src/components/CareerModal.jsx:71 | the texts of a + b are those of a followed by those of b |
| Cards.ShownHighlights | apps/client/src/components/CareerModal.jsx:71 | the texts of the first five highlights, in order: HighlightTexts of all of them when there are at most five, else of the first five |
| Cards.CareerEntry | apps/client/src/components/CareerModal.jsx:64-73 | the entry's period, logo URL (only for a logo), company name or '(회사명)', links, highlights, tags cut to 5, and a legacy description exactly when no highlight is shown and there is a description |
| Cards.CareerModal | apps/client/src/components/CareerModal.jsx:18-63 | nothing while closed; otherwise one entry per career, in the order given |
| Cards.LegacyDescriptionOnlyWithoutHighlights | apps/client/src/components/CareerModal.jsx:175-178 | a career whose first highlight has text shows no legacy description; one with no highlights shows its description |
| Cards.ImageUrl | apps/backoffice/src/pages/projects/ProjectDetailModal.jsx:13-18 | none exactly when there is neither a path nor an asset id; an 'http' path is kept; a path starting with '/' is appended to the base as it is, any other path after an added '/'; otherwise the asset's download URL |
| Cards.ImageUrlSlashInsensitive | apps/backoffice/src/pages/projects/ProjectDetailModal.jsx:14 | a relative path gives the same URL with or without its leading '/' |
| Cards.ImageUrlPathFirst | apps/backoffice/src/pages/projects/ProjectDetailModal.jsx:13-15 | a stored path wins over the asset id |
| Cards.ProjectDetail | apps/backoffice/src/pages/projects/ProjectDetailModal.jsx:10-32 | nothing without a project; otherwise a non-empty title, the project period and the two image URLs |
| ClientApi.StripTrailingSlash | apps/client/src/api.js:90 | one trailing '/' is dropped, any other string is kept |
| ClientApi.Segment | apps/client/src/api.js:91 | the path with exactly one leading '/' added when it lacks one |
| ClientApi.StaticUrl | apps/client/src/api.js:88-93 | '' for no path; otherwise the base without its trailing '/' followed by the slash-led path |
| ClientApi.StaticUrlSlashInsensitive | apps/client/src/api.js:91 | a path gives the same URL with or without its leading '/' |
| ClientApi.StaticUrlIdempotent | apps/client/src/api.js:88-93 | with no base, a static URL is its own static URL |
| ClientApi.Messages | apps/client/src/api.js:19 | the string `msg` members of a validation detail in order, none empty: one item gives its message or nothing, and the messages of a + b are a's then b's |
| ClientApi.MessagesConcat | apps/client/src/api.js:19 | the messages of a + b are those of a followed by those of b |
| ClientApi.ErrorMessage | apps/client/src/api.js:15-21 | a string detail as it is; a list's messages joined by newlines when there are any; the default message otherwise |
| ClientApi.ErrorMessageLines | apps/client/src/api.js:19-20 | splitting the joined message at newlines gives back the messages, when none holds a newline |
| ClientApi.Request | apps/client/src/api.js:6-31 | data exactly for an OK response that parses; a non-OK response fails with ErrorMessage of its detail; a failed fetch with the network message; an OK body that is not JSON fails with the parse error |
| ClientApi.IntroText | apps/client/src/api.js:66-69 | the intro's `text`, '' when it is missing; a failed request fails with the same message |
| ClientApi.PostsQueryReads | apps/client/src/api.js:33-42 | page, per_page and status=PUBLISHED always; category_id and tag_id when given; q trimmed and only when not blank; no other key |
| Home.GroupSize | apps/client/src/pages/Home.jsx:36 | three pages a group below a window width of 768, otherwise five |
| Home.PageOf | apps/client/src/pages/Home.jsx:24 | the page parameter when it is at least 1, else 1 |
| Home.CeilDiv | apps/client/src/pages/Home.jsx:87 | `Math.ceil(a / b)`: the least r with a <= r * b |
| Home.TotalPages | apps/client/src/pages/Home.jsx:87 | at least one page; enough pages of five for the total and no more |
| Home.ClampPage | apps/client/src/pages/Home.jsx:90 | the requested page clamped into 1..totalPages, unchanged when already inside |
| Home.PageChanged | apps/client/src/pages/Home.jsx:89-95 | `page` becomes the clamped page and every other parameter is kept |
| Home.StartPage | apps/client/src/pages/Home.jsx:97-98 | the first page of the current page's group: `((page - 1) / g) * g + 1`, at least 1 and within g pages below the current page |
| Home.EndPage | apps/client/src/pages/Home.jsx:99 | the group's last button: the last page of the listing or the group's own last page (start + g - 1), whichever comes first |
| Home.PageNumbers | apps/client/src/pages/Home.jsx:100-101 | the page numbers from startPage to endPage, one by one, none when the range is empty |
| Home.CurrentPageShown | apps/client/src/pages/Home.jsx:97-101 | an existing page lies among its group's buttons, all of which exist |
| Home.GroupIsShared | apps/client/src/pages/Home.jsx:97-98 | every page shown in the group has that same group |
| Home.NoButtonsPastTheEnd | apps/client/src/pages/Home.jsx:99-101 | a page whose group starts past the last page shows no number buttons |
| Home.PrevGroupLands | apps/client/src/pages/Home.jsx:159 | an enabled previous-group arrow goes to the last page of the previous group |
| Home.NextGroupLands | apps/client/src/pages/Home.jsx:184 | an enabled next-group arrow goes to the first page of the next group |
| Home.StepsLand | apps/client/src/pages/Home.jsx:162-181 | an enabled single-step arrow moves exactly one page |
| ContentHtml.QuoteFrom | apps/client/src/utils/imageUtils.js:9 | the first quote character at or after a position, and none before it; None when there is none |
| ContentHtml.MatchEnd | apps/client/src/utils/imageUtils.js:9 | where `src=` followed by a quote, a non-empty quote-free value and the same quote ends |
| ContentHtml.Source | apps/client/src/utils/imageUtils.js:13 | `src=` + quote + value + quote, laid out character by character |
| ContentHtml.ProcessContentHtml | apps/client/src/utils/imageUtils.js:7-8 | '' exactly for empty HTML; other HTML is the rewrite of its sources, and HTML without any `src=` is returned unchanged |
| ContentHtml.RewriteFacts | apps/client/src/utils/imageUtils.js:7-14 | non-empty HTML is never rewritten to '', and HTML without `src=` is rewritten to itself |
| ContentHtml.TextBeforeKept | apps/client/src/utils/imageUtils.js:9 | text in which no `src=` starts is copied through unchanged ahead of the rest |
| ContentHtml.RewriteCopies | apps/client/src/utils/imageUtils.js:9 | a character where no `src=` starts is copied and the rewrite goes on after it |
| ContentHtml.NoSourceUnchanged | apps/client/src/utils/imageUtils.js:9 | HTML without any `src=` is returned unchanged |
| ContentHtml.AbsoluteSourceKept | apps/client/src/utils/imageUtils.js:10-11 | a quoted source that starts with http:// or https:// after trimming is kept as it is |
| ContentHtml.SourceRewritten | apps/client/src/utils/imageUtils.js:9-14 | each quoted source is replaced by its rewritten form and the rewrite goes on after the closing quote |
| ContentHtml.RewriteAtSource | apps/client/src/utils/imageUtils.js:9 | at a match the rewrite emits the replacement and continues after the match |
| ContentHtml.ReplacedAbsolute | apps/client/src/utils/imageUtils.js:11 | an absolute source's replacement is the original match |
| ContentHtml.RelativeSourceRewritten | apps/client/src/utils/imageUtils.js:10-13 | a relative source becomes the static URL of its trimmed value, between the same quotes |
| ContentHtml.RewriteAtMatch | apps/client/src/utils/imageUtils.js:9 | where a match starts, the rewrite is its replacement followed by the rewrite of what follows |
| ContentHtml.SourceMatches | apps/client/src/utils/imageUtils.js:9 | a laid-out quoted source is matched exactly up to its closing quote |
| ContentHtml.QuoteFromSkips | apps/client/src/utils/imageUtils.js:9 | the search finds the first quote from the position on |
| PostDetail.KibTenths | apps/client/src/pages/PostDetail.jsx:25 | the size in tenths of a KB, rounded to the nearest tenth |
| PostDetail.MibTenths | apps/client/src/pages/PostDetail.jsx:26 | the size in tenths of a MB, rounded to the nearest tenth |
| PostDetail.OneDecimal | apps/client/src/pages/PostDetail.jsx:25-26 | a count of tenths n written with one decimal place: the digits before the '.' read back as n / 10 without a leading zero, and the one after it is n % 10 |
| PostDetail.FormatBytes | apps/client/src/pages/PostDetail.jsx:22-27 | '' for a missing or zero size; bytes below 1024 in B; then KB below 1024 * 1024; then MB, each with one decimal |
| PostDetail.LabelsStartAtOne | apps/client/src/pages/PostDetail.jsx:24-26 | a KB label reads at least 1.0 KB and an MB label at least 1.0 MB |
| PostDetail.FileExt | apps/client/src/pages/PostDetail.jsx:29-33 | '' without a name or a dot; otherwise the lower-cased text after the last dot, which holds no dot and no capital |
| PostDetail.ExtAfterLastDot | apps/client/src/pages/PostDetail.jsx:31-32 | the lower-cased text after the last dot holds no dot and no capital |
| PostDetail.FileExtOf | apps/client/src/pages/PostDetail.jsx:29-33 | the extension of 'stem.ext' is ext lower-cased, whatever dots the stem holds |
| PostDetail.Badge | apps/client/src/pages/PostDetail.jsx:240 | 'PDF' for pdf; otherwise the extension, or 'FILE' when there is none, upper-cased and cut to four characters |
| PostDetail.BadgePdfOnly | apps/client/src/pages/PostDetail.jsx:235-240 | for a lower-case extension the badge reads 'PDF' exactly when it is pdf |
| AdminLayout.CurrentPath | apps/backoffice/src/components/AdminLayout.jsx:89 | never empty; one trailing '/' is dropped and '' or '/' reads '/' |
| AdminLayout.CurrentPathNoTrailingSlash | apps/backoffice/src/components/AdminLayout.jsx:89 | unless the path ends in '//', the current path is '/' or does not end in '/' |
| AdminLayout.IsActive | apps/backoffice/src/components/AdminLayout.jsx:203-211 | the posts link is lit on /posts and on a post's own page, and off on /posts/new, the categories and prefixes pages and any page ending in /edit; any other link exactly on its own path |
| AdminLayout.PostsLinkOffSubpages | apps/backoffice/src/components/AdminLayout.jsx:207 | the posts link is off on the new, categories and prefixes pages and on edit pages |
| AdminLayout.PostsLinkOnPost | apps/backoffice/src/components/AdminLayout.jsx:208 | the posts link is lit on /posts/<id> for an id that is not one of the fixed sub-pages |
| AdminLayout.NoSubpageId | apps/backoffice/src/components/AdminLayout.jsx:207 | /posts/<id> is none of the fixed sub-pages unless id names one |
| AdminLayout.NoEditSuffix | apps/backoffice/src/components/AdminLayout.jsx:207 | /posts/<id> does not end in /edit for an id other than 'edit' |
| AdminLayout.OneLinkLit | apps/backoffice/src/components/AdminLayout.jsx:249-277 | no two navigation links are lit at once |
| AdminLayout.NavLinkNormal | apps/backoffice/src/components/AdminLayout.jsx:204 | every navigation link's href is already in normal form |
| AdminLayout.PostsLinkOffOtherLinks | apps/backoffice/src/components/AdminLayout.jsx:205-209 | the posts link is off on every other link's page |
| AdminLayout.TableTitle | apps/backoffice/src/components/AdminLayout.jsx:214-227 | a fixed page's title, never empty |
| AdminLayout.PageTitle | apps/backoffice/src/components/AdminLayout.jsx:213-233 | never empty; a fixed page's title when the table has one |
| AdminLayout.EditPageTitle | apps/backoffice/src/components/AdminLayout.jsx:228 | /posts/<id>/edit is titled '포스트 수정' |
| AdminLayout.NotInTable | apps/backoffice/src/components/AdminLayout.jsx:214-227 | a /posts/ path with a further '/' is not in the title table |
| AdminLayout.DetailNotInTable | apps/backoffice/src/components/AdminLayout.jsx:214-227 | a post's own page is not in the title table |
| AdminLayout.PostPageTitle | apps/backoffice/src/components/AdminLayout.jsx:229 | /posts/<id> is titled '포스트 보기' for an id that is not a fixed sub-page |
| AdminLayout.CareerPageTitle | apps/backoffice/src/components/AdminLayout.jsx:230 | /careers/<rest> is titled '경력 관리' for any rest but 'new' |
| AdminLayout.DocumentTitle | apps/backoffice/src/components/AdminLayout.jsx:236-242 | the dashboard's tab reads '정의랩 관리자'; any other page's reads its page title followed by the fixed suffix that ends in '관리자' |
| AdminLayout.PostsLinksOpenPosts | apps/backoffice/src/components/AdminLayout.jsx:149-153 | every page a post-section link lights opens the post accordion |
| AdminLayout.FlagText | apps/backoffice/src/components/AdminLayout.jsx:107 | `String(sidebarCollapsed)`: 'true' or 'false' |
| AdminLayout.ThemeText | apps/backoffice/src/components/AdminLayout.jsx:114-120 | 'dark' or 'light' |
| AdminLayout.PreferencesRoundTrip | apps/backoffice/src/components/AdminLayout.jsx:70-84 | a saved sidebar flag and a saved theme read back as the values saved |
| AdminLayout.DisplayName | apps/backoffice/src/components/AdminLayout.jsx:168 | `name ?? nickname ?? email` |
| AdminLayout.StoredName | apps/backoffice/src/components/AdminLayout.jsx:164-171 | the shown name is kept when nothing is stored, the stored user does not parse, or it has no display name; otherwise the parsed display name is shown |
| AdminLayout.SavedNameIsFullName | apps/backoffice/src/components/AdminLayout.jsx:178 | the saved user's name is its display name, so getIdentity reads it back as the full name |
| AdminLayout.Layout.constructor | apps/backoffice/src/components/AdminLayout.jsx:62-89 | the width, the current path, the default user name, the sidebar and theme read from localStorage, the accordions open on their routes, and both dialogs closed |
| AdminLayout.Layout.Navigate | apps/backoffice/src/components/AdminLayout.jsx:148-160 | the current path follows the location; an accordion opens on its routes and never closes on navigation |
| AdminLayout.Layout.TogglePosts | apps/backoffice/src/components/AdminLayout.jsx:367 | the post accordion flips |
| AdminLayout.Layout.ToggleAbout | apps/backoffice/src/components/AdminLayout.jsx:375 | the about accordion flips |
| AdminLayout.Layout.Resize | apps/backoffice/src/components/AdminLayout.jsx:91-94 | the width follows the window; a desktop width closes the overlay, a narrow one keeps it |
| AdminLayout.Layout.SidebarWidth | apps/backoffice/src/components/AdminLayout.jsx:246 | 4rem only when collapsed on a desktop, else 15rem |
| AdminLayout.Layout.ToggleOverlay | apps/backoffice/src/components/AdminLayout.jsx:430 | the overlay flips |
| AdminLayout.Layout.CloseOverlay | apps/backoffice/src/components/AdminLayout.jsx:124 | the overlay closes |
| AdminLayout.Layout.ToggleSidebar | apps/backoffice/src/components/AdminLayout.jsx:103-109 | the sidebar flag flips and is saved to localStorage on a desktop only |
| AdminLayout.Layout.ToggleTheme | apps/backoffice/src/components/AdminLayout.jsx:111-122 | the theme flips and is always saved |
| AdminLayout.Layout.SessionExpired | apps/backoffice/src/components/AdminLayout.jsx:127-131 | the 'session-expired' event opens the dialog |
| AdminLayout.Layout.ConfirmSessionExpired | apps/backoffice/src/components/AdminLayout.jsx:132-136 | the dialog closes, the client's once-only flag is lowered and the login page follows |
| AdminLayout.Layout.Logout | apps/backoffice/src/components/AdminLayout.jsx:193-201 | the auth is cleared, so checkAuth rejects, and the login page follows |
| AdminLayout.Layout.LoadUserInfo | apps/backoffice/src/components/AdminLayout.jsx:162-191 | the stored name is shown first; a display name from /api/auth/me is shown and saved beside the token; a failure removes the stored user from both storages; after a save getIdentity reads that user back |
| ApiClient.AuthHeaders | apps/backoffice/src/lib/apiClient.js:20-25 | always the JSON content type; a bearer Authorization exactly when the token is a non-empty string; no other header |
| ApiClient.Merge | apps/backoffice/src/lib/apiClient.js:60 | the caller's headers win over the defaults, and every default not overridden is kept |
| ApiClient.UploadHeaders | apps/backoffice/src/lib/apiClient.js:106-114 | a content type only when the caller gives one; the bearer token unless the caller gives its own Authorization |
| ApiClient.Segment | apps/backoffice/src/lib/apiClient.js:50 | the path with a leading '/', added only when missing |
| ApiClient.ResolveUrl | apps/backoffice/src/lib/apiClient.js:47-52 | an http(s) URL is kept; any other path gets a leading '/' and, outside development, the API base in front |
| ApiClient.DevIgnoresBase | apps/backoffice/src/lib/apiClient.js:49 | in development the API base plays no part |
| ApiClient.DevResolveIdempotent | apps/backoffice/src/lib/apiClient.js:47-52 | in development resolving a resolved URL changes nothing |
| ApiClient.FailureMessage | apps/backoffice/src/lib/apiClient.js:80 | the response's string `detail`, else the default message |
| ApiClient.Settle | apps/backoffice/src/lib/apiClient.js:63-88 | data and status exactly for a 2xx response; a failed fetch throws the network message with status 0 and isNetworkError; another response throws its message with its status and body |
| ApiClient.ErrorOf | apps/backoffice/src/lib/apiClient.js:82-83 | the thrown error carries the status both as `status` and as `response.status` |
| ApiClient.CheckErrorSeesDenied | apps/backoffice/src/authProvider.js:69-79 | the auth provider's checkError logs out for exactly the client's 401 and 403 errors, never for a network error |
| ApiClient.Client.constructor | apps/backoffice/src/lib/apiClient.js:27 | the once-only flag starts down and no event has gone out |
| ApiClient.Client.HandleUnauthorized | apps/backoffice/src/lib/apiClient.js:30-40 | token and user leave both storages on every call; the event goes out only when the flag was down, and at most one goes out between resets |
| ApiClient.Client.ResetSessionExpiredFlag | apps/backoffice/src/lib/apiClient.js:43-45 | the flag is lowered, so the next 401 or 403 raises the event again |
| ApiClient.Client.Conclude | apps/backoffice/src/lib/apiClient.js:74-88 | the settled outcome; a 401 or 403 runs handleUnauthorized, any other outcome leaves storage and flag alone |
| ApiClient.Client.Request | apps/backoffice/src/lib/apiClient.js:55-89 | fetch gets the resolved URL and the auth headers under the caller's; the outcome and its effect on storage are as Conclude states |
| ApiClient.Client.Upload | apps/backoffice/src/lib/apiClient.js:104-138 | a POST to the resolved URL with the upload headers; the outcome as for a request |
| ApiClient.Client.DeniedTwice | apps/backoffice/src/lib/apiClient.js:37-39 | two denied responses in a row raise one event at most, both fail with their statuses, and checkAuth then rejects |
| AuthProvider.Item | apps/backoffice/src/authProvider.js:12 | `getItem`: the stored string exactly when the key is present |
| AuthProvider.Or | apps/backoffice/src/authProvider.js:12 | JavaScript's or on stored values: a when it is non-empty, else b |
| AuthProvider.CaughtMessage | apps/backoffice/src/authProvider.js:49-53 | a message mentioning 'fetch' becomes the connection message; any other is kept |
| AuthProvider.LoginMessage | apps/backoffice/src/authProvider.js:38-53 | a thrown error's message, or a refusal's non-empty detail, passed through the catch; an empty detail gives the login-failed message |
| AuthProvider.LoginFailedKept | apps/backoffice/src/authProvider.js:40-53 | the login-failed message does not mention 'fetch', so it is rethrown as it is |
| AuthProvider.ErrorStatus | apps/backoffice/src/authProvider.js:70 | the error's non-zero `status` first, else its `response.status` |
| AuthProvider.FullName | apps/backoffice/src/authProvider.js:88 | the name when it is non-empty, else the email |
| AuthProvider.WebStorage.constructor | apps/backoffice/src/authProvider.js:11-17 | the two storages as given |
| AuthProvider.WebStorage.Token | apps/backoffice/src/authProvider.js:11-13 | the localStorage token when there is one, else the sessionStorage one |
| AuthProvider.WebStorage.User | apps/backoffice/src/authProvider.js:15-17 | the localStorage user when there is one, else the sessionStorage one |
| AuthProvider.WebStorage.ClearAuth | apps/backoffice/src/authProvider.js:19-24 | both keys leave both storages and nothing else changes |
| AuthProvider.WebStorage.Login | apps/backoffice/src/authProvider.js:27-55 | on success token and user go to localStorage and checkAuth then resolves; on failure nothing is written and the promise rejects with LoginMessage |
| AuthProvider.WebStorage.Logout | apps/backoffice/src/authProvider.js:57-60 | clearAuth then resolve, after which checkAuth rejects |
| AuthProvider.WebStorage.CheckAuth | apps/backoffice/src/authProvider.js:62-67 | rejects exactly when neither storage holds a token or a user |
| AuthProvider.WebStorage.CheckError | apps/backoffice/src/authProvider.js:69-79 | a 401 or 403 records the expiry reason, clears the auth and rejects; any other error resolves and changes nothing |
| AuthProvider.WebStorage.GetIdentity | apps/backoffice/src/authProvider.js:81-93 | `{}` without a stored user; otherwise the parsed user's id and full name, or a rejection where parsing throws |
| Tags.FindByName | apps/api/routers/tags.py:40-44 | the first row whose name equals the given one up to letter case, or None exactly when no row does |
| Tags.FindByNameFolds | apps/api/routers/tags.py:40-44 | two names equal up to letter case find the same row |
| Tags.NameBeforeIsStrict | apps/api/routers/tags.py:30 | ordering tags by name is a strict order |
| Tags.ListAll | apps/api/routers/tags.py:30-31 | every tag once, ordered by name |
| Tags.PublishedUses | apps/api/routers/tags.py:21-25 | exactly the number of published uses of the tag in the join rows |
| Tags.CountedBeforeIsStrict | apps/api/routers/tags.py:26 | ordering counted tags by name is a strict order |
| Tags.UsedWithCounts | apps/api/routers/tags.py:19-25 | exactly the tags with a positive published-use count, each with its count |
| Tags.ListUsed | apps/api/routers/tags.py:18-29 | the used tags with their counts, ordered by name, none with a zero count |
| Tags.UsedTagListed | apps/api/routers/tags.py:18-29 | a tag is listed exactly when some published post uses it |
| Tags.TagStore.constructor | apps/api/routers/tags.py:46-48 | an empty table whose next id is 1 |
| Tags.TagStore.Lookup | apps/api/routers/tags.py:40-43 | the stored row whose name equals this one up to letter case, or None when there is none |
| Tags.TagStore.Create | apps/api/routers/tags.py:34-57 | a blank name is refused with 400; a name already stored up to letter case returns that row and inserts nothing; a new one is inserted under the next id; afterwards the trimmed name resolves to the returned row |
| Tags.TagStore.Append | apps/api/routers/tags.py:46-54 | the row is appended under the next id and resolves by its name |
| Tags.TagStore.CreateTwice | apps/api/routers/tags.py:36-45 | creating the same name twice returns the same row |
| Tags.CreateCaseVariant | apps/api/routers/tags.py:34-57 | creating a name and then a variant of it in another letter case returns the same row and adds at most one |
| Tags.TagStore.LookupUnique | apps/api/routers/tags.py:40-43 | a name that resolves resolves to FindByName's row |
| Tags.FindLast | apps/api/routers/tags.py:51-54 | a name held only by the last row is found there |
| CategoriesApi.KeyLessStrict | apps/api/routers/categories.py:50 | ordering by (sort_order, id) is a strict order |
| CategoriesApi.WithParent | apps/api/routers/categories.py:56-61 | a parent's rows, never more than there are rows |
| CategoriesApi.WithParentMembers | apps/api/routers/categories.py:56-61 | exactly the rows with that parent |
| CategoriesApi.RootRowsAreSortedRoots | apps/api/routers/categories.py:62 | the roots are exactly the parent_id NULL rows, sorted by (sort_order, id) |
| CategoriesApi.ChildRowsAreSortedChildren | apps/api/routers/categories.py:64 | a root's children are exactly the rows with it as parent, sorted by (sort_order, id) |
| CategoriesApi.WithParentSnoc | apps/api/routers/categories.py:57-61 | appending a row adds it to its own parent's group only |
| CategoriesApi.GroupByParent | apps/api/routers/categories.py:56-61 | the loop's by_parent map holds, for every parent, exactly that parent's rows in table order |
| CategoriesApi.WithChildren | apps/api/routers/categories.py:63-64 | one tree item per root |
| CategoriesApi.WithChildrenSnoc | apps/api/routers/categories.py:63-64 | each further root gets its own sorted children |
| CategoriesApi.WithChildrenAt | apps/api/routers/categories.py:63-64 | the k-th item is the k-th root with its sorted children |
| CategoriesApi.AttachStep | apps/api/routers/categories.py:63-64 | one pass of the loop extends the tree by one root |
| CategoriesApi.AttachChildren | apps/api/routers/categories.py:63-64 | the loop attaches to each root exactly its sorted children |
| CategoriesApi.ListTree | apps/api/routers/categories.py:55-65 | the tree response: the sorted roots, each with its sorted children |
| CategoriesApi.ListTreeShape | apps/api/routers/categories.py:55-65 | every listed root is a stored parent_id NULL row whose children are exactly its rows, sorted |
| CategoriesApi.TreeHasTwoLevels | apps/api/routers/categories.py:62-64 | a row whose parent is not a root appears nowhere in the tree |
| CategoriesApi.IndexOfId | apps/api/routers/categories.py:137 | the position of the row with this id, or None exactly when there is none |
| CategoriesApi.HasIdFound | apps/api/routers/categories.py:81 | a stored id is found |
| CategoriesApi.NextSortOrder | apps/api/routers/categories.py:88-95 | one more than the siblings' largest sort_order, or 0 without siblings |
| CategoriesApi.LastIndexFor | apps/api/routers/categories.py:217-221 | the last reorder item for an id, or None when there is none |
| CategoriesApi.LastOrderFor | apps/api/routers/categories.py:217-221 | the sort_order the last item for an id gives it |
| CategoriesApi.SetSortOrder | apps/api/routers/categories.py:219-220 | one UPDATE keeps the number of rows |
| CategoriesApi.ReorderedStep | apps/api/routers/categories.py:217-221 | the items are applied in the order given |
| CategoriesApi.Reordered | apps/api/routers/categories.py:217-221 | reordering keeps the number of rows |
| CategoriesApi.ReorderedRows | apps/api/routers/categories.py:217-221 | only sort_order changes; a row no item names is unchanged; a named row takes the sort_order of its last item, not its position |
| CategoriesApi.CategoryTable.constructor | apps/api/routers/categories.py:43-52 | an empty table whose next id is 1 |
| CategoriesApi.CategoryTable.ListFlat | apps/api/routers/categories.py:46-53 | every row once, ordered by (sort_order, id) |
| CategoriesApi.CategoryTable.Get | apps/api/routers/categories.py:133-142 | the row with this id, or 404 exactly when there is none |
| CategoriesApi.CategoryTable.Create | apps/api/routers/categories.py:69-130 | a blank name gives 400; an unknown parent gives 400; otherwise the trimmed row is inserted under the next id with the given sort_order or NextSortOrder |
| CategoriesApi.CategoryTable.Append | apps/api/routers/categories.py:97-109 | the row is appended under the next id |
| CategoriesApi.CategoryTable.Update | apps/api/routers/categories.py:145-192 | 404 for an unknown id; 400 for a blank name, the category as its own parent or an unknown parent; otherwise exactly the fields sent change, and with none sent the stored row is returned |
| CategoriesApi.CategoryTable.Rewrite | apps/api/routers/categories.py:183-187 | the UPDATE of one row, its id kept |
| CategoriesApi.CategoryTable.Reorder | apps/api/routers/categories.py:210-223 | the table becomes Reordered of the old one by the items in order |
| CategoryTree.IdsReplaceAt | apps/backoffice/src/pages/categories/CategoryList.jsx:62 | replacing one node of a list swaps that node's ids for the new node's and keeps all others |
| CategoryTree.SetListAt | apps/backoffice/src/pages/categories/CategoryList.jsx:60-62 | writing one sibling list leaves that list readable at the same path, and the outer list's length unchanged |
| CategoryTree.IdsSetListAt | apps/backoffice/src/pages/categories/CategoryList.jsx:60-62 | writing one sibling list swaps that list's ids and keeps every other id |
| CategoryTree.FindNodeInTree | apps/backoffice/src/pages/categories/CategoryList.jsx:31-38 | the indexed loop with early return finds what Find specifies: the first pre-order match |
| CategoryTree.FindFromSound | apps/backoffice/src/pages/categories/CategoryList.jsx:32-36 | a location found from position i holds a node with that id |
| CategoryTree.FindSound | apps/backoffice/src/pages/categories/CategoryList.jsx:31-38 | a found location is valid and holds a node with that id, so `parentChildren[index].id === nodeId` |
| CategoryTree.FindFromComplete | apps/backoffice/src/pages/categories/CategoryList.jsx:32-37 | nothing is found from position i exactly when no node from there on has that id |
| CategoryTree.FindComplete | apps/backoffice/src/pages/categories/CategoryList.jsx:31-38 | the search returns null exactly when no node has the id |
| CategoryTree.FindDistinct | apps/backoffice/src/pages/categories/CategoryList.jsx:31-38 | two different ids are found at two different locations |
| CategoryTree.NumberedAppend | apps/backoffice/src/pages/categories/CategoryList.jsx:22 | numbering a concatenation numbers the second part from where the first ended |
| CategoryTree.WalkStep | apps/backoffice/src/pages/categories/CategoryList.jsx:21-24 | visiting one more sibling appends it at the next global position, followed by its subtree |
| CategoryTree.WalkJoin | apps/backoffice/src/pages/categories/CategoryList.jsx:21-24 | one pass of forEach extends the output by the node and its numbered subtree |
| CategoryTree.Walk | apps/backoffice/src/pages/categories/CategoryList.jsx:20-25 | the walk appends every node of the list in pre-order, numbered from the output's length |
| CategoryTree.BuildFlatOrder | apps/backoffice/src/pages/categories/CategoryList.jsx:18-28 | every node exactly once in pre-order (a parent before its children, siblings in order), with sort_order 0..n-1 in output order |
| CategoryTree.RemoveAt | apps/backoffice/src/pages/categories/CategoryList.jsx:43 | `splice(i, 1)` shortens the list by one |
| CategoryTree.InsertAt | apps/backoffice/src/pages/categories/CategoryList.jsx:44 | `splice(i, 0, x)` lengthens the list by one |
| CategoryTree.MoveInArray | apps/backoffice/src/pages/categories/CategoryList.jsx:41-46 | the new list is a permutation of the old one, of the same length |
| CategoryTree.MultisetRemoveInsert | apps/backoffice/src/pages/categories/CategoryList.jsx:42-44 | taking an element out and putting it back elsewhere keeps the multiset |
| CategoryTree.MoveInArrayAt | apps/backoffice/src/pages/categories/CategoryList.jsx:41-46 | each position of the result: the moved element at the clamped target, every other element shifted by at most one in the original order |
| CategoryTree.MoveInArrayInverse | apps/backoffice/src/pages/categories/CategoryList.jsx:41-46 | moving from `from` to `to` and back restores the list |
| CategoryTree.MoveBackAt | apps/backoffice/src/pages/categories/CategoryList.jsx:41-46 | moving there and back restores each position |
| CategoryTree.ReorderKeepsNodes | apps/backoffice/src/pages/categories/CategoryList.jsx:49-64 | reordering never adds or loses a node |
| CategoryTree.MoveIds | apps/backoffice/src/pages/categories/CategoryList.jsx:59 | moving within a sibling list keeps its ids |
| CategoryTree.ReorderPlacesNextToTarget | apps/backoffice/src/pages/categories/CategoryList.jsx:53-63 | with both nodes under one parent, the dragged node ends directly before the target, or directly after it when insertAfter is set |
| CategoryTree.UnmovedNextTo | apps/backoffice/src/pages/categories/CategoryList.jsx:58 | when the drop slot is the node's own slot or the one after it, the node already stands next to the target |
| CategoryTree.MovedNextTo | apps/backoffice/src/pages/categories/CategoryList.jsx:56-59 | the index handed to moveInArray puts the node next to the target |
| CategoryTree.ChildPathList | apps/backoffice/src/pages/categories/CategoryList.jsx:77-79 | a node's children list is reachable by its path and owned by that node |
| CategoryTree.Shift | apps/backoffice/src/pages/categories/CategoryList.jsx:81-83 | the target list's path after the splice has the same depth |
| CategoryTree.RemoveShift | apps/backoffice/src/pages/categories/CategoryList.jsx:81-83 | after the dragged node is spliced out, the target list (outside its subtree) is still there under the same owner |
| CategoryTree.RemoveShiftTop | apps/backoffice/src/pages/categories/CategoryList.jsx:81 | the same for a node spliced out of the root list |
| CategoryTree.RemoveShiftBelow | apps/backoffice/src/pages/categories/CategoryList.jsx:81 | the same for a node spliced out below the target's top-level ancestor |
| CategoryTree.TargetListPath | apps/backoffice/src/pages/categories/CategoryList.jsx:71-80 | the root list for null; otherwise the children list of the node with that id; none exactly when that id is missing |
| CategoryTree.IdsRemoveNode | apps/backoffice/src/pages/categories/CategoryList.jsx:81 | splicing a node out removes exactly its subtree's ids |
| CategoryTree.IdsPlace | apps/backoffice/src/pages/categories/CategoryList.jsx:81-83 | splicing the node out and into the target list keeps every id |
| CategoryTree.MoveKeepsNodes | apps/backoffice/src/pages/categories/CategoryList.jsx:67-85 | moving a node to a new parent never adds or loses a node |
| CategoryTree.MovePlacesUnderParent | apps/backoffice/src/pages/categories/CategoryList.jsx:81-84 | a successful move records the new parent and leaves the re-parented node in the target parent's list at the drop index, or last when the index is past the end |
| CategoryTree.OwnerAfterSet | apps/backoffice/src/pages/categories/CategoryList.jsx:83 | writing a list does not change which node owns it |
| CategoryTree.MoveRefused | apps/backoffice/src/pages/categories/CategoryList.jsx:69-76 | a missing node or a missing target parent returns the tree unchanged with newParentId undefined |
| CategoryTree.MoveIntoOwnChildLosesNodes | apps/backoffice/src/pages/categories/CategoryList.jsx:67-85 | dropping the only root onto its own child row empties the tree as written; the corrected move refuses it |
| CategoryTree.AsWrittenDropsSubtree | apps/backoffice/src/pages/categories/CategoryList.jsx:75-83 | as written, every drop inside the dragged node's own subtree loses that subtree |
| CategoryPage.SetEntry | apps/backoffice/src/pages/categories/CategoryList.jsx:246 | `{ ...m, [id]: newParentId }`: the key now maps to the new value, every other key keeps its value, and the keys stay in ascending order |
| CategoryPage.SetEntryBehind | apps/backoffice/src/pages/categories/CategoryList.jsx:246 | setting a key above the first entry keeps that entry in front |
| CategoryPage.LookupBelow | apps/backoffice/src/pages/categories/CategoryList.jsx:246 | a key below every stored key is absent |
| CategoryPage.ParentRequests | apps/backoffice/src/pages/categories/CategoryList.jsx:185-187 | one parent_id PUT per recorded change, in key order |
| CategoryPage.CategoryListPage.constructor | apps/backoffice/src/pages/categories/CategoryList.jsx:98-114 | the fetched tree, no recorded parents, the order clean and nothing dragged |
| CategoryPage.CategoryListPage.DragStart | apps/backoffice/src/pages/categories/CategoryList.jsx:210-215 | the dragged id is recorded |
| CategoryPage.CategoryListPage.HandleDrop | apps/backoffice/src/pages/categories/CategoryList.jsx:226-251 | no drag, a falsy id or a drop on itself changes nothing; a missing node only ends the drag; siblings are reordered; otherwise the node moves to the target parent and the change is recorded; the order is then dirty and no node is ever added or lost |
| CategoryPage.CategoryListPage.ApplyReorder | apps/backoffice/src/pages/categories/CategoryList.jsx:242 | the tree becomes the reordered tree, the order is dirty, and the nodes are kept |
| CategoryPage.CategoryListPage.ApplyMove | apps/backoffice/src/pages/categories/CategoryList.jsx:244-246 | the tree becomes the moved tree, the new parent is recorded, the order is dirty, and the nodes are kept |
| CategoryPage.CategoryListPage.Reorder | apps/backoffice/src/pages/categories/CategoryList.jsx:183-200 | the recorded parents are PUT in key order before the flat order is PATCHed; a failure stops there, keeps the state and sets the error; success sends BuildFlatOrder's list, clears the recorded parents and the dirty flag and reloads the tree |
| CategoryPage.SendParents | apps/backoffice/src/pages/categories/CategoryList.jsx:185-187 | the PUTs go out in order up to and including the first that fails, and all of them when none fails |
| CategoryPage.PrefixOfPrefix | apps/backoffice/src/pages/categories/CategoryList.jsx:185-187 | the requests sent before a failure are a prefix of all the PUTs |
| PostsApi.CandidateInjective | apps/api/routers/posts.py:87-89 | distinct counters give distinct `base-n` candidates |
| PostsApi.SlugsSize | apps/api/routers/posts.py:71-79 | the posts hold no more distinct slugs than rows |
| PostsApi.CandidatesSize | apps/api/routers/posts.py:86-89 | the candidates tried before `n` are `n - 1` distinct slugs |
| PostsApi.CandidatesBound | apps/api/routers/posts.py:86-89 | the counter can pass only as many taken candidates as there are posts, so the search stops |
| PostsApi.SlugBase | apps/api/routers/posts.py:83 | an empty base becomes "untitled", so the slug is never empty |
| PostsApi.UniqueSlug | apps/api/routers/posts.py:82-89 | the loop settles on ChosenSlug: the base when it is free among the other posts, else `base-n` for the least free `n` |
| PostsApi.ChosenSlugUnique | apps/api/routers/posts.py:82-89 | at most one slug meets ChosenSlug, so the slug is a function of the table and the base |
| PostsApi.PastCheck | apps/api/routers/posts.py:109-114 | a publish time counts as past exactly when it is given and more than 60 seconds before now |
| PostsApi.UpdateCheckRelaxesCreate | apps/api/routers/posts.py:355-433 | update rejects only what create rejects, and it lets through exactly a past time that repeats the stored minute |
| PostsApi.SameMinuteClose | apps/api/routers/posts.py:427-429 | two instants with the same minute prefix lie less than 60 seconds apart |
| PostsApi.NormalizePath | apps/api/routers/posts.py:41 | the normalised path holds no backslash |
| PostsApi.RelocatedPath | apps/api/routers/posts.py:34-52 | an asset is moved exactly when its normalised path contains "/temp/", and its new path replaces the first occurrence with the post's folder |
| PostsApi.RelocatedPathFirst | apps/api/routers/posts.py:47 | what precedes the first "/temp/" is kept, that occurrence becomes "/{id}/", and what follows is kept unchanged |
| PostsApi.RewriteContent | apps/api/routers/posts.py:403-482 | a body without "/temp/" is stored unchanged |
| PostsApi.RewriteContentFirst | apps/api/routers/posts.py:403-405 | the first "/temp/" becomes the post's folder, the text before it is kept and the rest is rewritten in turn |
| PostsApi.RewriteContentAt | apps/api/routers/posts.py:403-405 | a stored temp path after text holding no "/temp/" is moved to the post's folder and the rest of the body is rewritten |
| PostsApi.RewriteContentTwoPaths | apps/api/routers/posts.py:478-482 | both temp paths of a body are moved to the post's folder |
| PostsApi.RewriteContentNoRescan | apps/api/routers/posts.py:405 | REPLACE does not rescan: "/temp/temp/" for post 5 becomes "/5/temp/" |
| PostsApi.Filtered | apps/api/routers/posts.py:139-161 | no more posts match than the table holds |
| PostsApi.FilteredMembers | apps/api/routers/posts.py:139-161 | a post is counted exactly when it passes every filter: category or its children, status (PUBLISHED also needs a past date), tag, prefix and title substring |
| PostsApi.OrderingStrict | apps/api/routers/posts.py:168-174 | each of the three orderings (newest, oldest, most viewed then newest) is a strict order |
| PostsApi.ListPosts | apps/api/routers/posts.py:126-203 | total is the number of matches; items are Page of the ordered matches from (page - 1) * per_page, that is the slice of at most per_page of them starting there, cut at the end; a negative offset or limit is an error |
| PostsApi.Page | apps/api/routers/posts.py:176-203 | LIMIT per_page OFFSET offset: at most per_page rows, none past the end, and min(per_page, n - offset) of them when the offset lies inside the n rows |
| PostsApi.ListPostsSorted | apps/api/routers/posts.py:168-174 | the listed page is in the requested order |
| PostsApi.ListPostsMatch | apps/api/routers/posts.py:126-162 | every listed post is a stored post matching the query |
| PostsApi.SortedSlice | apps/api/routers/posts.py:183 | a slice of an ordered list is ordered |
| PostsApi.Previous | apps/api/routers/posts.py:234-243 | the older neighbour is a visible post older in (published_at, id) order, the latest such one, and None exactly when there is none |
| PostsApi.Following | apps/api/routers/posts.py:222-231 | the newer neighbour is a visible post newer in (published_at, id) order, the earliest such one, and None exactly when there is none |
| PostsApi.FindVisible | apps/api/routers/posts.py:208-217 | the visible post with this id, or None exactly when no post with that id is visible |
| PostsApi.GetNeighbors | apps/api/routers/posts.py:205-247 | 404 exactly when the post is not visible; otherwise prev is its older and next its newer visible neighbour |
| PostsApi.NothingBetweenPrevious | apps/api/routers/posts.py:234-243 | no visible post lies strictly between a post and its older neighbour |
| PostsApi.NothingBetweenFollowing | apps/api/routers/posts.py:222-231 | no visible post lies strictly between a post and its newer neighbour |
| PostsApi.TagLinks | apps/api/routers/posts.py:380-387 | a post_tags row is written exactly for each non-zero submitted tag id |
| PostsApi.AttachmentLinks | apps/api/routers/posts.py:388-395 | a post_attachments row is written exactly for each non-zero submitted asset id, with its position in the list as sort_order |
| PostsApi.AttachmentLinksOrdered | apps/api/routers/posts.py:388-395 | the attachment rows come out in increasing sort_order |
| PostsApi.StoredStatus | apps/api/routers/posts.py:369 | a missing status is stored as "DRAFT", so the status is never empty |
| PostsApi.RewriteColumns | apps/api/routers/posts.py:403-406 | the final REPLACE keeps id, slug, status and date, keeps a NULL body NULL and leaves content_json non-NULL |
| PostsApi.IndexOfPost | apps/api/routers/posts.py:415-417 | the position of the row with this id, or None exactly when there is none |
| PostsApi.DropTagLinks | apps/api/routers/posts.py:455 | the remaining post_tags rows are exactly those of other posts |
| PostsApi.DropAttachmentLinks | apps/api/routers/posts.py:464 | the remaining post_attachments rows are exactly those of other posts |
| PostsApi.PostStore.constructor | apps/api/routers/posts.py:126 | an empty table whose first id is 1 |
| PostsApi.PostStore.GetPost | apps/api/routers/posts.py:249-347 | 404 for an unknown id and, for anonymous readers, for a post that is not PUBLISHED with a past date; an anonymous read of a visible post adds one to its view_count and to today's daily_stats, a logged-in read changes nothing |
| PostsApi.PostStore.InsertTagLinks | apps/api/routers/posts.py:380-387 | the loop appends exactly the post_tags rows of the submitted ids |
| PostsApi.PostStore.InsertAttachmentLinks | apps/api/routers/posts.py:388-395 | the loop appends exactly the post_attachments rows of the submitted ids |
| PostsApi.PostStore.CreatePost | apps/api/routers/posts.py:349-411 | 400 and no write (next id unchanged) for a past publish date; otherwise the row under the next id, which advances by one, with ChosenSlug's slug and its body rewritten, then its tag and attachment rows; daily views are untouched |
| PostsApi.PostStore.Insert | apps/api/routers/posts.py:362-395 | the row is appended under the next id, then its links |
| PostsApi.PostStore.UpdatePost | apps/api/routers/posts.py:412-487 | 404 for an unknown id, 400 for a past date that does not repeat the stored minute, both with no write; otherwise the row is replaced in place with ChosenSlug's slug among the other posts, and its tag and attachment rows are replaced |
| PostsApi.PostStore.Rewrite | apps/api/routers/posts.py:435-470 | the row is replaced in place and the post's old links give way to the new ones |
| PostPrefixes.ValidName | apps/api/routers/post_prefixes.py:22-31 | accepts exactly a trimmed name that is not blank and at most 20 characters, returning it trimmed; 400 with its own message for a blank and for a too-long name |
| PostPrefixes.ValidNameIdempotent | apps/api/routers/post_prefixes.py:22-31 | an accepted name is accepted again unchanged |
| PostPrefixes.TwentyAccepted | apps/api/routers/post_prefixes.py:11-26 | the length bound is inclusive: 20 characters after trimming pass |
| PostPrefixes.IndexOfPrefix | apps/api/routers/post_prefixes.py:84-89 | the position of the row with this id, or None exactly when there is none |
| PostPrefixes.PostCount | apps/api/routers/post_prefixes.py:40-42 | exactly the number of posts whose prefix_id is this prefix |
| PostPrefixes.ListedBeforeIsStrict | apps/api/routers/post_prefixes.py:44 | ordering by sort_order then id is a strict order |
| PostPrefixes.WithCounts | apps/api/routers/post_prefixes.py:37-46 | one listed row per prefix, with that prefix's post count |
| PostPrefixes.ListPrefixes | apps/api/routers/post_prefixes.py:34-56 | the list holds each prefix with its count once, ordered by sort_order then id |
| PostPrefixes.EveryPrefixListed | apps/api/routers/post_prefixes.py:42 | the LEFT JOIN lists every prefix, also one no post uses |
| PostPrefixes.PrefixStore.constructor | apps/api/routers/post_prefixes.py:34 | an empty table whose first id is 1 |
| PostPrefixes.PrefixStore.Get | apps/api/routers/post_prefixes.py:81-90 | the row with this id, 404 exactly when there is none |
| PostPrefixes.PrefixStore.Create | apps/api/routers/post_prefixes.py:59-78 | an invalid name gives the validation error and no write; a valid one is stored trimmed with sort order 0 under the next id and returned |
| PostPrefixes.PrefixStore.Update | apps/api/routers/post_prefixes.py:93-112 | 404 for an unknown id; no name returns the row's id and name unchanged; an invalid name is 400 with no write; a valid one replaces only that row's name and returns the id with the trimmed name |
| PostPrefixes.PrefixStore.Delete | apps/api/routers/post_prefixes.py:115-130 | 404 for an unknown id with no write; otherwise exactly that row is removed |
| Assets.GetExt | apps/api/routers/assets.py:37-39 | the extension is empty or whitelisted; when non-empty it is the lower-cased piece after the last '.', and it is non-empty whenever that piece is whitelisted |
| Assets.NoEmptyExtension | apps/api/routers/assets.py:31-34 | the empty string is not a whitelisted extension, so an empty result always means rejection |
| Assets.GetExtOfName | apps/api/routers/assets.py:38 | "stem.e" has extension e in lower case exactly when that is whitelisted |
| Assets.GetExtWithoutDot | apps/api/routers/assets.py:38 | a name without a '.' is taken whole as its extension |
| Assets.OctetExemptionRedundant | apps/api/routers/assets.py:60-67 | a content type passes exactly when it is missing or in the allowed set: the octet-stream exemption never decides, since octet-stream is already allowed |
| Assets.UploadProblem | apps/api/routers/assets.py:54-67 | the extension message exactly when the extension is not whitelisted; otherwise the type message exactly when a given type is not allowed |
| Assets.PostFolder | apps/api/routers/assets.py:69 | the trimmed post id, or "temp" when it is missing or blank |
| Assets.Directory | apps/api/routers/assets.py:71-83 | the target directory is never empty and ends in '/' |
| Assets.DirectoryCases | apps/api/routers/assets.py:71-83 | projects and careers uploads get their own folders; any other upload is filed by day, images under images/posts and other files under documents |
| Assets.StoredName | apps/api/routers/assets.py:70 | the first 12 hex digits of the fresh UUID, a '.', then the extension |
| Assets.RelPathEndsInName | apps/api/routers/assets.py:70-83 | the stored name is the last path segment, directly under the post folder in that directory |
| Assets.UploadUrl | apps/api/routers/assets.py:93 | the URL is "/static/uploads/" followed by the path character by character, each backslash turned into '/' |
| Assets.Utf8 | apps/api/routers/assets.py:138 | one byte exactly below U+0080, two below U+0800, three below U+10000, else four; the lead byte marks the length (0xC0, 0xE0, 0xF0 ranges) and the rest are continuation bytes |
| Assets.Utf8Decodes | apps/api/routers/assets.py:138 | the bytes of a code point decode back to it |
| Assets.Utf8Bytes | apps/api/routers/assets.py:138 | a name encodes character by character: one character gives its Utf8 bytes, and at least as many bytes as characters |
| Assets.Utf8BytesConcat | apps/api/routers/assets.py:138 | the bytes of a + b are those of a followed by those of b |
| Assets.HexDigit | apps/api/routers/assets.py:138 | a hex digit is an unreserved character |
| Assets.HexValue | apps/api/routers/assets.py:138 | a hex digit's value is below 16 |
| Assets.HexRoundTrip | apps/api/routers/assets.py:138 | reading a written hex digit gives its value back |
| Assets.EscapeByte | apps/api/routers/assets.py:138 | a byte is kept exactly when it is an unreserved ASCII character, and is written as '%XX' otherwise |
| Assets.EscapeBytes | apps/api/routers/assets.py:138 | the escaped byte string holds only unreserved characters and '%' |
| Assets.PercentEncode | apps/api/routers/assets.py:138 | `quote(name, safe="")` produces only unreserved characters and '%' |
| Assets.DecodeEscapeByte | apps/api/routers/assets.py:138 | the escape of one byte decodes back to that byte ahead of the rest |
| Assets.DecodeEscapeBytes | apps/api/routers/assets.py:138 | escaped bytes decode back to the same bytes |
| Assets.PercentRoundTrip | apps/api/routers/assets.py:136-139 | the RFC 5987 `filename*` value decodes to exactly the UTF-8 bytes of the original name |
| Assets.UnreservedUnchanged | apps/api/routers/assets.py:138 | a name made only of unreserved ASCII characters is sent unchanged |
| Assets.AsciiReplace | apps/api/routers/assets.py:137 | same length; ASCII characters are kept and every other character becomes '?' |
| Assets.AsciiFallback | apps/api/routers/assets.py:137 | the ASCII fallback is never empty; "download" stands in for an empty name |
| Assets.OriginalName | apps/api/routers/assets.py:94 | the trimmed client file name when it is not blank, else the stored name |
| Assets.UploadPlan | apps/api/routers/assets.py:46-118 | 400 for a bad extension or type, checked first; otherwise 413 exactly when the content is over 10 MiB; otherwise the path, row and URL the upload stores |
| Assets.StoredPathKept | apps/api/routers/assets.py:96 | a path without backslashes is stored as it is |
| Assets.AssetStore.constructor | apps/api/routers/assets.py:98-110 | no rows and no files, first id 1 |
| Assets.AssetStore.DownloadOf | apps/api/routers/assets.py:121-145 | 404 for an unknown id, for a row without a path and for a missing file, each with its own message; otherwise the file served is the stored path with slashes, under the attachment disposition of the original name |
| Assets.AssetStore.Upload | apps/api/routers/assets.py:46-118 | a rejected upload changes nothing; an accepted one writes the file and inserts the row of the plan under the next id, and when the planned relative path holds no backslash that asset can then be downloaded |
| Assets.AssetStore.Store | apps/api/routers/assets.py:91-110 | exactly the file and the row under the next id are added |
| AdminRecords.ParseDate | apps/api/routers/careers.py:140-146 | None exactly for a missing or blank date; otherwise the first ten characters of the trimmed input, with '-01' added to a 'YYYY-MM' month |
| AdminRecords.ParseDateOfMonth | apps/api/routers/careers.py:144-145 | a 'YYYY-MM' month becomes its first day, and that day is kept as it is when sent again |
| AdminRecords.KeptTag | apps/api/routers/careers.py:128-132 | a non-zero integer is kept as it is; a string is kept exactly when its trimmed text is all digits, as the value of those digits; anything else is dropped |
| AdminRecords.NormalizedTags | apps/api/routers/careers.py:122-133 | one element gives its kept id or nothing; the list is no longer than the input |
| Strings.ParseDigitsTrimmed | apps/api/routers/careers.py:131-132 | a value exactly when the stripped text is all digits, and then the value of those digits (int() ignores the surrounding space) |
| AdminRecords.NormalizedTagsConcat | apps/api/routers/careers.py:127-133 | input order is kept: the ids of a + b are a's, then b's |
| AdminRecords.NormalizeTags | apps/api/routers/careers.py:124-133 | the validator's loop builds exactly the normalised list |
| AdminRecords.NormalizedTagsMembers | apps/api/routers/careers.py:128-132 | an id is in the list exactly when some input element yields it |
| AdminRecords.NormalizeKeepsFormIds | apps/api/routers/careers.py:129-130 | a list of non-zero integers passes unchanged |
| AdminRecords.SlashPath | apps/api/routers/careers.py:25 | the same length, with no backslash left |
| AdminRecords.RelocatedAsset | apps/api/routers/careers.py:18-36 | a path is relocated only for a given, non-zero asset id with a row, and the new path is the owner's folder followed by the file's name |
| AdminRecords.RelocatedAssetWhen | apps/api/routers/careers.py:18-36 | the asset is moved exactly when it has a non-zero id and a row whose trimmed, slashed path is an uploaded file in the folder's temp directory |
| AdminRecords.RelocatedKeepsName | apps/api/routers/careers.py:31-32 | the moved file keeps its file name |
| AdminRecords.RelocatedOnce | apps/api/routers/careers.py:26 | a path already in the owner's folder is not relocated again |
| AdminRecords.AfterLastOfJoin | apps/api/routers/careers.py:31-32 | the last segment of a folder joined with a name is the name |
| AdminRecords.TrimPrefixOf | apps/api/routers/careers.py:25 | trimming a string that does not begin with a space only cuts its end |
| AdminRecords.TrimmedOwnerPath | apps/api/routers/careers.py:26 | a path in the owner's folder does not start with the temp folder |
| AdminRecords.FileUrl | apps/api/routers/careers.py:39-44 | no URL exactly for a missing or empty path; otherwise "/static/uploads/" followed by the path character by character, each backslash turned into '/' |
| AdminRecords.Assignments | apps/api/routers/careers.py:295-302 | exactly the non-zero ids sent receive a sort_order, and it is a position at which that id was sent |
| AdminRecords.ReorderAssignments | apps/api/routers/careers.py:298-300 | the reorder loop assigns exactly those sort orders |
| AdminRecords.AssignmentsAt | apps/api/routers/careers.py:298-300 | an id that is not sent again later receives its own index |
| AdminRecords.KeptLinks | apps/api/routers/careers.py:186-188 | every kept link has a name and a URL |
| AdminRecords.KeptLinksMembers | apps/api/routers/careers.py:187-188 | a link gets a row exactly when it has a name and a URL |
| AdminRecords.LinkRows | apps/api/routers/careers.py:186-192 | one row per kept link, in order |
| AdminRecords.LinkRowsStep | apps/api/routers/careers.py:186-192 | one more link adds its row exactly when it has a name and a URL |
| AdminRecords.CollectLinkRows | apps/api/routers/careers.py:186-192 | the link loop collects exactly those rows |
| AdminRecords.DropLinks | apps/api/routers/careers.py:254 | the link rows left are exactly those of other owners |
| AdminRecords.Relocated | apps/api/routers/careers.py:18-36 | assets.file_path keeps its keys and every other asset's path; when the named asset's stored path relocates, its new file_path is the relocated path, and otherwise the table is unchanged |
| AdminRecords.RelocatedTwice | apps/api/routers/careers.py:18-36 | relocating twice is the same as relocating once |
| AdminRecords.NothingToRelocate | apps/api/routers/careers.py:20-30 | an asset whose path does not qualify leaves the table unchanged |
| CareersApi.CheckCareer | apps/api/routers/careers.py:152-160 | no error, or one of the three messages of the create checks |
| CareersApi.CheckCareerOrder | apps/api/routers/careers.py:152-160 | a blank company is reported first, then a blank role, then a missing start date; the body passes exactly when all three are present |
| CareersApi.TrimmedOrNull | apps/api/routers/careers.py:175 | NULL exactly for missing or blank text, else the trimmed text |
| CareersApi.CareerRow | apps/api/routers/careers.py:164-178 | the stored row keeps the id, logo and sort order sent |
| CareersApi.CareerRowNames | apps/api/routers/careers.py:152-157 | the stored company name and role are non-blank and trimmed |
| CareersApi.CareerRowStart | apps/api/routers/careers.py:158-160 | the stored start date is the first ten characters of the trimmed date sent, with '-01' added to a 'YYYY-MM' month |
| CareersApi.CareerRowDescription | apps/api/routers/careers.py:175 | the stored description is NULL or non-blank and trimmed |
| CareersApi.KeptHighlights | apps/api/routers/careers.py:193 | at most five highlights are kept |
| CareersApi.HighlightRows | apps/api/routers/careers.py:193-197 | one row per kept highlight, trimmed, with sort_order its index |
| CareersApi.HighlightRowsContent | apps/api/routers/careers.py:193-197 | the stored highlights are at most five, non-blank, trimmed and numbered by position |
| CareersApi.TagRows | apps/api/routers/careers.py:198-200 | a tag row is written exactly for each non-zero id among the first five |
| CareersApi.TagRowsOf | apps/api/routers/careers.py:198-200 | a tag row exactly for each non-zero id of the list |
| CareersApi.IndexOfCareer | apps/api/routers/careers.py:221-223 | the position of the career with this id, or None exactly when there is none |
| CareersApi.DropHighlights | apps/api/routers/careers.py:255 | the highlight rows left are exactly those of other careers |
| CareersApi.DropTags | apps/api/routers/careers.py:256 | the tag rows left are exactly those of other careers |
| CareersApi.Reordered | apps/api/routers/careers.py:295-302 | a career whose id was sent takes its assigned sort_order; every other one is unchanged |
| CareersApi.ReorderedPositions | apps/api/routers/careers.py:298-300 | with distinct ids, the career with the i-th id gets sort_order i, and one not sent keeps its own |
| CareersApi.CareerStore.constructor | apps/api/routers/careers.py:47-58 | empty tables over the given asset paths, first id 1 |
| CareersApi.CareerStore.InsertHighlights | apps/api/routers/careers.py:193-197 | the loop appends exactly the highlight rows |
| CareersApi.CareerStore.InsertTags | apps/api/routers/careers.py:198-200 | the loop appends exactly the tag rows |
| CareersApi.CareerStore.InsertChildren | apps/api/routers/careers.py:186-200 | the rows of the first five links, the kept highlights and the first five tags are appended |
| CareersApi.CareerStore.AppendCareer | apps/api/routers/careers.py:164-180 | the row is appended under the next id |
| CareersApi.CareerStore.ReplaceCareer | apps/api/routers/careers.py:233-250 | only the k-th row changes, keeping its id |
| CareersApi.CareerStore.RelocateAsset | apps/api/routers/careers.py:18-36 | the asset table becomes its relocated form |
| CareersApi.CareerStore.DropChildren | apps/api/routers/careers.py:253-258 | that career's link, highlight and tag rows are deleted and no others |
| CareersApi.CareerStore.Insert | apps/api/routers/careers.py:164-200 | the new row, its logo relocated, and its child rows |
| CareersApi.CareerStore.Rewrite | apps/api/routers/careers.py:233-273 | the row replaced, its logo relocated, and its child rows replaced |
| CareersApi.CareerStore.Create | apps/api/routers/careers.py:149-202 | 400 on the first failed check with no write; otherwise the row under the next id, the logo moved out of temp, and the child rows |
| CareersApi.CareerStore.Update | apps/api/routers/careers.py:218-275 | 404 for an unknown id, then the create checks, with no write on error; otherwise the row is rewritten and its child rows replaced |
| CareersApi.CareerStore.Reorder | apps/api/routers/careers.py:295-302 | the table becomes its reordered form |
| ProjectsApi.CheckProject | apps/api/routers/projects.py:163-165 | the body passes exactly when its trimmed title is not blank; otherwise the title message |
| ProjectsApi.ProjectRow | apps/api/routers/projects.py:169-183 | the stored row keeps the id, sort order and both image ids sent |
| ProjectsApi.ProjectRowTitle | apps/api/routers/projects.py:163-175 | the stored title is non-blank and trimmed |
| ProjectsApi.ProjectRowText | apps/api/routers/projects.py:119-178 | the stored description is NULL or non-blank and trimmed; each stored date is NULL exactly when the date sent was missing or blank |
| ProjectsApi.TagRows | apps/api/routers/projects.py:199-204 | a tag row exactly for each non-zero id, with its position in the submitted list as sort_order, in increasing order |
| ProjectsApi.IndexOfProject | apps/api/routers/projects.py:218-220 | the position of the project with this id, or None exactly when there is none |
| ProjectsApi.DropTags | apps/api/routers/projects.py:244 | the tag rows left are exactly those of other projects |
| ProjectsApi.Reordered | apps/api/routers/projects.py:278-285 | a project whose id was sent takes its assigned sort_order; every other one is unchanged |
| ProjectsApi.ReorderedPositions | apps/api/routers/projects.py:281-283 | with distinct ids, the project with the i-th id gets sort_order i, and one not sent keeps its own |
| ProjectsApi.ProjectStore.constructor | apps/api/routers/projects.py:59 | empty tables over the given asset paths, first id 1 |
| ProjectsApi.ProjectStore.InsertTags | apps/api/routers/projects.py:199-204 | the loop appends exactly the tag rows |
| ProjectsApi.ProjectStore.InsertChildren | apps/api/routers/projects.py:192-204 | the rows of every link with a name and URL, with no cap, and the tag rows are appended |
| ProjectsApi.ProjectStore.RelocateAssets | apps/api/routers/projects.py:190-191 | the thumbnail, then the intro image, are relocated |
| ProjectsApi.ProjectStore.AppendProject | apps/api/routers/projects.py:169-185 | the row is appended under the next id |
| ProjectsApi.ProjectStore.ReplaceProject | apps/api/routers/projects.py:224-242 | only the k-th row changes, keeping its id |
| ProjectsApi.ProjectStore.Insert | apps/api/routers/projects.py:169-204 | the new row, its two images relocated, and its link and tag rows |
| ProjectsApi.ProjectStore.Rewrite | apps/api/routers/projects.py:224-260 | the row replaced, its link and tag rows replaced, and its two images relocated |
| ProjectsApi.ProjectStore.Create | apps/api/routers/projects.py:150-212 | 400 for a blank title with no write; otherwise the row under the next id, the images moved out of temp, and the child rows |
| ProjectsApi.ProjectStore.Update | apps/api/routers/projects.py:215-262 | 404 for an unknown id, then 400 for a blank title, with no write on error; otherwise the row rewritten and its child rows replaced |
| ProjectsApi.ProjectStore.Reorder | apps/api/routers/projects.py:278-285 | the table becomes its reordered form |
| ListPages.MessageOr | apps/backoffice/src/pages/careers/CareerList.jsx:53 | a non-empty error message is shown as it is; otherwise the fallback, so the shown message is never empty |
| ListPages.Dropped | apps/backoffice/src/pages/careers/CareerList.jsx:94-103 | no new list exactly when nothing is dragged or a row is dropped on itself; otherwise a permutation of the list with the dragged row at the drop index |
| ListPages.DroppedBack | apps/backoffice/src/pages/careers/CareerList.jsx:29-34 | dragging the moved row back to where it came from restores the list |
| ListPages.CareerIds | apps/backoffice/src/pages/careers/CareerList.jsx:103 | the id order lists each career's id at its position |
| ListPages.ProjectIds | apps/backoffice/src/pages/projects/ProjectList.jsx:101 | the id order lists each project's id at its position |
| ListPages.CareerRowNumber | apps/backoffice/src/pages/careers/CareerList.jsx:187 | career rows are numbered from the length down to 1 |
| ListPages.ProjectRowNumber | apps/backoffice/src/pages/projects/ProjectList.jsx:235 | project rows are numbered from 1 up to the length |
| ListPages.RowNumbersDistinct | apps/backoffice/src/pages/careers/CareerList.jsx:187 | each numbering gives every row its own number, and the career numbering is the project numbering read backwards |
| ListPages.IntroPayload | apps/backoffice/src/pages/projects/ProjectList.jsx:186 | the text sent is at most 20 characters |
| ListPages.IntroSentWhole | apps/backoffice/src/pages/projects/ProjectList.jsx:186-194 | whenever save is enabled, the trimmed text is sent whole |
| ListPages.TrimNoLonger | apps/backoffice/src/pages/projects/ProjectList.jsx:186 | trimming never lengthens a string |
| ListPages.CareerListPage.constructor | apps/backoffice/src/pages/careers/CareerList.jsx:38-42 | an empty list, nothing dragged, no error |
| ListPages.CareerListPage.Fetched | apps/backoffice/src/pages/careers/CareerList.jsx:45-58 | a fetched list is shown sorted latest first with no error; a failure empties the list and shows its message or the default |
| ListPages.CareerListPage.DragStart | apps/backoffice/src/pages/careers/CareerList.jsx:74-79 | the row is dragged and no drop target is shown |
| ListPages.CareerListPage.DragOver | apps/backoffice/src/pages/careers/CareerList.jsx:81-85 | a row other than the dragged one becomes the drop target; otherwise nothing changes |
| ListPages.CareerListPage.HandleDrop | apps/backoffice/src/pages/careers/CareerList.jsx:94-111 | no request and no change for a missing drag or a drop on the same row; otherwise the moved id order is PATCHed, a failure leaves the list and shows its message, and success shows the refetched list sorted, or, when that refetch fails, an empty list and the refetch error's message (the default text when it has none) |
| ListPages.ProjectListPage.constructor | apps/backoffice/src/pages/projects/ProjectList.jsx:30-41 | an empty list, nothing dragged, the intro dialog closed and empty |
| ListPages.ProjectListPage.Fetched | apps/backoffice/src/pages/projects/ProjectList.jsx:43-56 | the fetched list is shown in server order with no error; a failure empties the list and shows its message or the default |
| ListPages.ProjectListPage.DragStart | apps/backoffice/src/pages/projects/ProjectList.jsx:72-77 | the row is dragged and no drop target is shown |
| ListPages.ProjectListPage.HandleDrop | apps/backoffice/src/pages/projects/ProjectList.jsx:92-109 | no request and no change for a missing drag or a drop on the same row; otherwise the moved id order is PATCHed and the moved list is shown only when that succeeds |
| ListPages.ProjectListPage.IntroOpened | apps/backoffice/src/pages/projects/ProjectList.jsx:139-148 | the dialog opens with no error, showing the fetched text or '' |
| ListPages.ProjectListPage.IntroTyped | apps/backoffice/src/pages/projects/ProjectList.jsx:171 | the field holds what was typed |
| ListPages.ProjectListPage.IntroSave | apps/backoffice/src/pages/projects/ProjectList.jsx:182-194 | the trimmed text is sent, within 20 characters; success closes the dialog and a failure keeps it open with the message or the default |
| MessageList.Truncate | apps/backoffice/src/pages/messages/MessageList.jsx:18-21 | '' for a missing or empty value; text within maxLen unchanged; longer text cut to its first maxLen characters followed by '…' |
| MessageList.MaxKey | apps/backoffice/src/pages/messages/MessageList.jsx:110 | the largest sort order among the messages, and some message has it |
| MessageList.AddSortOrder | apps/backoffice/src/pages/messages/MessageList.jsx:110 | 1 for an empty list; otherwise one more than the largest sort order, so above every message |
| MessageList.Position | apps/backoffice/src/pages/messages/MessageList.jsx:113 | the new position lies in 1..3; a missing, zero or negative value gives 1, a value above 3 gives 3, and a value in range is kept |
| MessageList.IndexOfMessage | apps/backoffice/src/pages/messages/MessageList.jsx:115 | the first index holding the id, or None exactly when no message has it |
| MessageList.Moved | apps/backoffice/src/pages/messages/MessageList.jsx:114-121 | the renumbered list has as many messages as before |
| MessageList.RequestAt | apps/backoffice/src/pages/messages/MessageList.jsx:123-135 | at most one PUT for a message |
| MessageList.EditRequests | apps/backoffice/src/pages/messages/MessageList.jsx:123-135 | at most one PUT per message considered |
| MessageList.EditRequestsMembers | apps/backoffice/src/pages/messages/MessageList.jsx:123-135 | a PUT is sent exactly when one of the messages considered sends it |
| MessageList.EditRenumbers | apps/backoffice/src/pages/messages/MessageList.jsx:122-135 | after the PUTs every message is numbered by its position: its number was already right or a PUT sets it |
| MessageList.EditedIsSent | apps/backoffice/src/pages/messages/MessageList.jsx:128-133 | the edited message is always sent, with the new title and content and its new number |
| MessageList.OnlyChangedAreSent | apps/backoffice/src/pages/messages/MessageList.jsx:126-134 | no other message is sent unless its number changed |
| MessageList.MovedLandsAt | apps/backoffice/src/pages/messages/MessageList.jsx:113-121 | the edited message lands at its clamped new position in the sorted list |
| MessageList.Planned | apps/backoffice/src/pages/messages/MessageList.jsx:92-136 | the too-long title, too-long content, cap and not-found messages each exactly in their case; otherwise an add sends one POST at AddSortOrder and an edit sends EditRequests of the moved list |
| MessageList.MessageListPage.constructor | apps/backoffice/src/pages/messages/MessageList.jsx:24-34 | no messages, no error, the dialog closed |
| MessageList.MessageListPage.FetchList | apps/backoffice/src/pages/messages/MessageList.jsx:36-52 | with no token only the auth message; a fetched list replaces the items with no error; a failure keeps the list and shows its message or the default |
| MessageList.MessageListPage.OpenAdd | apps/backoffice/src/pages/messages/MessageList.jsx:58-73 | refused with the cap message at three messages; otherwise an empty add dialog showing the next slot |
| MessageList.MessageListPage.OpenEdit | apps/backoffice/src/pages/messages/MessageList.jsx:75-85 | an edit dialog with the message's id, title and content, at its position or 1 |
| MessageList.MessageListPage.CloseDialog | apps/backoffice/src/pages/messages/MessageList.jsx:87-90 | the dialog closes with its contents kept, and the error is cleared |
| MessageList.MessageListPage.SaveDialog | apps/backoffice/src/pages/messages/MessageList.jsx:92-142 | the requests and message of the plan; the dialog closes only when everything was saved |
| MessageList.Save | apps/backoffice/src/pages/messages/MessageList.jsx:92-141 | a rejected plan sends nothing and shows its message; otherwise the requests go out in order up to and including the one that fails, which shows its message or the default |
| MessageList.SendEdits | apps/backoffice/src/pages/messages/MessageList.jsx:123-135 | the loop sends the PUTs in order and stops right after the one that fails |
| MessageList.SentPrefix | apps/backoffice/src/pages/messages/MessageList.jsx:123-135 | the requests up to and including a sending message begin the full list |
| MessageList.EditRequestsStep | apps/backoffice/src/pages/messages/MessageList.jsx:123-135 | one message further, the list grows by that message's request |
| MessageList.EditRequestsPrefix | apps/backoffice/src/pages/messages/MessageList.jsx:123-135 | the PUTs of fewer messages begin the PUTs of more |
| PostList.TotalPages | apps/backoffice/src/pages/posts/PostList.jsx:46 | at least one page; one page for no posts; otherwise the least page count whose pages of ten hold every post |
| PostList.CurrentPage | apps/backoffice/src/pages/posts/PostList.jsx:31-48 | with no posts the URL's page is kept; otherwise the page is clamped to the last one, so it always starts inside the listing |
| PostList.RangeWithinTotal | apps/backoffice/src/pages/posts/PostList.jsx:49-50 | with posts to show, from..to is a non-empty part of 1..total, at most one page long, holding exactly the positions of the shown page |
| PostList.DivisionWindow | apps/backoffice/src/pages/posts/PostList.jsx:46-50 | a position lies on page p exactly when it falls in p's window of ten |
| PostList.RangeLabel | apps/backoffice/src/pages/posts/PostList.jsx:380 | the fixed text for no posts; otherwise the total, then `from-to` for the shown page's first and last position |
| PostList.RowNumbersCountDown | apps/backoffice/src/pages/posts/PostList.jsx:320 | every listed row's number lies in 1..total, and no two rows on any pages share one |
| PostList.PrevTarget | apps/backoffice/src/pages/posts/PostList.jsx:363 | one page back, never below the first |
| PostList.NextTarget | apps/backoffice/src/pages/posts/PostList.jsx:412 | `Math.min(totalPages - 1, page + 1)`: one page on while there is one, else the last page |
| PostList.ArrowsStayInRange | apps/backoffice/src/pages/posts/PostList.jsx:363-413 | an enabled arrow always leads to an adjacent page of the listing |
| PostList.UpdateParams | apps/backoffice/src/pages/posts/PostList.jsx:52-64 | the loop builds exactly the updated parameter list |
| PostList.GetApplied | apps/backoffice/src/pages/posts/PostList.jsx:55-58 | a key the update names reads its new value, or none when that is empty; any other key reads as before |
| PostList.UpdatedGet | apps/backoffice/src/pages/posts/PostList.jsx:52-64 | a key the update names reads its new value or none; page reads '1' unless the update names it; every other key is untouched |
| PostList.ToggleOne | apps/backoffice/src/pages/posts/PostList.jsx:154-156 | exactly the one id flips membership |
| PostList.ToggleOneTwice | apps/backoffice/src/pages/posts/PostList.jsx:154-156 | toggling an id twice restores the selection |
| PostList.ToggleAll | apps/backoffice/src/pages/posts/PostList.jsx:149-153 | ids of other pages are untouched; the page's ids are all removed when all were selected and all added otherwise |
| PostList.ToggleAllRoundTrip | apps/backoffice/src/pages/posts/PostList.jsx:149-153 | selecting the page and pressing again clears exactly that page from the selection |
| PostList.StatusBadge | apps/backoffice/src/pages/posts/PostList.jsx:18-25 | each label as an if-and-only-if: scheduled exactly for PUBLISHED with a future date, published for the other PUBLISHED, unlisted, private, and draft for any other status |
| PostList.PostsQueryReads | apps/backoffice/src/pages/posts/PostList.jsx:102-110 | the query holds the 1-based page and per_page 10, each filter only when non-empty, q trimmed and only when non-blank, and order_by only when it is not latest_published |
| PostList.QueryKey | apps/backoffice/src/pages/posts/PostList.jsx:102-110 | each key of the query reads the value it should |
| PostEditor.SpacesToDash | apps/backoffice/src/pages/posts/PostEditor.jsx:31 | no whitespace is left: each run of it has become a dash |
| PostEditor.KeepSlugChars | apps/backoffice/src/pages/posts/PostEditor.jsx:32 | only word characters, Hangul syllables and dashes are left, and the text never grows |
| PostEditor.CollapseDashes | apps/backoffice/src/pages/posts/PostEditor.jsx:33 | no two dashes in a row are left; nothing new appears, the empty text stays empty and the last character is kept |
| PostEditor.StripDashes | apps/backoffice/src/pages/posts/PostEditor.jsx:34 | the result is a contiguous part of its input with no dash at either end |
| PostEditor.SlugChainShape | apps/backoffice/src/pages/posts/PostEditor.jsx:29-34 | the replace chain leaves slug characters only, no double dash and no dash at either end |
| PostEditor.LowerKeepsSlugShape | apps/backoffice/src/pages/posts/PostEditor.jsx:35 | lowering a non-empty chain result gives a well-formed slug |
| PostEditor.UntitledIsSlug | apps/backoffice/src/pages/posts/PostEditor.jsx:35 | the fallback 'untitled' is itself a well-formed slug |
| PostEditor.SlugFromTitleIsSlug | apps/backoffice/src/pages/posts/PostEditor.jsx:28-36 | whatever the title, the slug is non-empty, lower-case, made of slug characters, with no double dash and no dash at either end |
| PostEditor.SlugFromTitleFixesSlugs | apps/backoffice/src/pages/posts/PostEditor.jsx:28-36 | a well-formed slug passes through unchanged |
| PostEditor.SlugFromTitleIdempotent | apps/backoffice/src/pages/posts/PostEditor.jsx:28-36 | applying slugFromTitle to its own output changes nothing |
| PostEditor.SlugIsTrimmed | apps/backoffice/src/pages/posts/PostEditor.jsx:28-36 | a slug has no surrounding whitespace, so trimming it or taking the server's slug base leaves it as it is |
| PostEditor.ServerKeepsEditorSlug | apps/backoffice/src/pages/posts/PostEditor.jsx:341 | the server's unique-slug search starts from exactly the slug the editor sent |
| PostEditor.StripTags | apps/backoffice/src/pages/posts/PostEditor.jsx:373 | removing tags never lengthens the text and introduces no character |
| PostEditor.StripTagsNoTag | apps/backoffice/src/pages/posts/PostEditor.jsx:373 | a text without '<' is left unchanged |
| PostEditor.StripTagsDropsTag | apps/backoffice/src/pages/posts/PostEditor.jsx:373 | a complete non-empty tag at the front is removed whole |
| PostEditor.EmptyParagraphCannotBeSaved | apps/backoffice/src/pages/posts/PostEditor.jsx:373-378 | the editor's empty paragraph leaves no body text, so Save stays disabled whatever the other fields hold |
| PostEditor.VisibleTextCanBeSaved | apps/backoffice/src/pages/posts/PostEditor.jsx:373-378 | with a non-blank title, a chosen category and a submittable status, one visible character between tags enables Save |
| PostEditor.FixClosing | apps/backoffice/src/pages/posts/PostEditor.jsx:308 | the closing-tag replacement keeps the text's length |
| PostEditor.FixOpening | apps/backoffice/src/pages/posts/PostEditor.jsx:308 | the opening-tag replacement keeps the text's length |
| PostEditor.FixClosingAt | apps/backoffice/src/pages/posts/PostEditor.jsx:308 | a closing h5 or h6 tag, in either case, becomes a lower-case closing h4 tag; every other character is kept |
| PostEditor.FixOpeningAt | apps/backoffice/src/pages/posts/PostEditor.jsx:308 | an opening h5 or h6 tag, in either case, becomes a lower-case opening h4 with the following space or '>' kept; every other character is kept |
| PostEditor.FixClosingLeavesNone | apps/backoffice/src/pages/posts/PostEditor.jsx:308 | no closing h5 or h6 tag survives the first replacement |
| PostEditor.FixClosingKeepsOpenings | apps/backoffice/src/pages/posts/PostEditor.jsx:308 | the first replacement neither creates nor removes an opening h5 or h6 tag |
| PostEditor.FixOpeningLeavesNone | apps/backoffice/src/pages/posts/PostEditor.jsx:308 | the second replacement leaves no opening h5 or h6 tag and creates no closing one |
| PostEditor.RewriteHeadingsLeavesNone | apps/backoffice/src/pages/posts/PostEditor.jsx:308 | saved content holds no h5 or h6 tag, opening or closing, in either case |
| PostEditor.RewriteHeadingsChangesOnlyHeadings | apps/backoffice/src/pages/posts/PostEditor.jsx:308 | the content keeps its length; inside an h5 or h6 tag the letter becomes 'h' and the digit '4', and every other character is kept, so other tags and text are untouched |
| PostEditor.RewriteHeadingsWithoutSmallHeadings | apps/backoffice/src/pages/posts/PostEditor.jsx:308 | content without h5 or h6 tags is sent unchanged |
| PostEditor.PublishedAtFor | apps/backoffice/src/pages/posts/PostEditor.jsx:310-330 | a published post always gets a date; any other status sends the loaded date; a scheduled post with a picked date sends that date; otherwise the loaded date exactly when it is already past, else now |
| PostEditor.PublishNowAcceptedOnCreate | apps/backoffice/src/pages/posts/PostEditor.jsx:310-325 | a new post published now is not refused by create_post when it reaches the server within its 60-second tolerance |
| PostEditor.KeepingOriginAcceptedOnUpdate | apps/backoffice/src/pages/posts/PostEditor.jsx:310-330 | re-saving a post that keeps its stored past date, or that is not published, is never refused by update_post |
| PostEditor.PastScheduleRefusedOnCreate | apps/backoffice/src/pages/posts/PostEditor.jsx:311-316 | a scheduled date more than a minute older than the server's clock is refused on create |
| PostEditor.PayloadTags | apps/backoffice/src/pages/posts/PostEditor.jsx:332-350 | one number is sent as it is, one string as its digits' value when all digits, else nothing; never longer than the form's list |
| PostEditor.PayloadTagsConcat | apps/backoffice/src/pages/posts/PostEditor.jsx:332-337 | form order is kept: the tags of a + b are a's, then b's |
| PostEditor.PayloadTagsMembers | apps/backoffice/src/pages/posts/PostEditor.jsx:332-350 | a number is sent exactly when the form holds it as a number, or as an all-digit string with that value |
| PostEditor.PayloadAttachmentIds | apps/backoffice/src/pages/posts/PostEditor.jsx:335-337 | the positive ids in list order: one attachment gives its id when positive, and the ids of a + b are a's then b's |
| PostEditor.PayloadAttachmentIdsConcat | apps/backoffice/src/pages/posts/PostEditor.jsx:335-337 | the ids of a + b are those of a followed by those of b |
| PostEditor.ChoiceId | apps/backoffice/src/pages/posts/PostEditor.jsx:344-346 | an id is sent exactly when a real choice, not the placeholder, was made |
| PostEditor.SavedTitleIsFormTitle | apps/backoffice/src/pages/posts/PostEditor.jsx:340-378 | a post that passes canSave is stored under its own trimmed, non-blank title, never the placeholder |
| PostEditor.FindTag | apps/backoffice/src/pages/posts/PostEditor.jsx:209 | the first known tag whose lower-cased name equals the lower-cased input, or none when no tag matches |
| PostEditor.FindTagIgnoresCase | apps/backoffice/src/pages/posts/PostEditor.jsx:209 | two inputs differing only in ASCII case find the same tag |
| PostEditor.Without | apps/backoffice/src/pages/posts/PostEditor.jsx:224 | the removed reference is gone and every other one is kept; one element is dropped exactly when it is the removed one |
| PostEditor.WithoutConcat | apps/backoffice/src/pages/posts/PostEditor.jsx:224 | order is kept: the result on a + b is a's, then b's |
| PostEditor.WithoutAttachment | apps/backoffice/src/pages/posts/PostEditor.jsx:304 | exactly the attachments with another id are kept; one attachment is dropped exactly when it has the id |
| PostEditor.WithoutAttachmentConcat | apps/backoffice/src/pages/posts/PostEditor.jsx:304 | order, which becomes sort_order on save, is kept: the result on a + b is a's, then b's |
| PostEditor.DistinctSnoc | apps/backoffice/src/pages/posts/PostEditor.jsx:220 | adding a tag only when it is absent keeps the tag list free of duplicates |
| PostEditor.ListedIsMember | apps/backoffice/src/pages/posts/PostEditor.jsx:25 | the extension set test is membership in the list of allowed extensions |
| PostEditor.FileExtIsLastPiece | apps/backoffice/src/pages/posts/PostEditor.jsx:264 | the extension is the lower-cased text after the last dot |
| PostEditor.ExtOkIsLastPiece | apps/backoffice/src/pages/posts/PostEditor.jsx:264 | a file is accepted exactly when the last piece of its name split at dots, lower-cased, is an allowed extension; a name without a dot is its own extension |
| PostEditor.FailMessage | apps/backoffice/src/pages/posts/PostEditor.jsx:288-298 | a failed upload always leaves a non-empty error message |
| PostEditor.FirstFailure | apps/backoffice/src/pages/posts/PostEditor.jsx:269-289 | the index at which the upload loop stops; when it lies inside the list, that file's upload failed |
| PostEditor.FailFlags | apps/backoffice/src/pages/posts/PostEditor.jsx:269-289 | one flag per file, set exactly where that file's upload fails |
| PostEditor.FirstFailureIsFirst | apps/backoffice/src/pages/posts/PostEditor.jsx:269-289 | no file before the stopping point failed its upload |
| PostEditor.FirstFailureAt | apps/backoffice/src/pages/posts/PostEditor.jsx:269-289 | a failing upload with none failing before it is where the loop stops |
| PostEditor.Added | apps/backoffice/src/pages/posts/PostEditor.jsx:291-295 | one file adds at most one attachment, and only with a positive id |
| PostEditor.AddedAll | apps/backoffice/src/pages/posts/PostEditor.jsx:269-296 | the files add no more attachments than there are files |
| PostEditor.AddedAllSound | apps/backoffice/src/pages/posts/PostEditor.jsx:269-296 | every added attachment has a positive id and comes from an accepted file whose upload reported that id |
| PostEditor.SkipStep | apps/backoffice/src/pages/posts/PostEditor.jsx:270-277 | a refused file adds nothing and leaves its refusal message |
| PostEditor.UploadStep | apps/backoffice/src/pages/posts/PostEditor.jsx:278-295 | an uploaded file adds what its answer reports and leaves the error message alone |
| PostEditor.SelectStep | apps/backoffice/src/pages/posts/PostEditor.jsx:269-296 | a file that does not stop the loop carries the loop's invariants one file further on |
| PostEditor.EditorState.constructor | apps/backoffice/src/pages/posts/PostEditor.jsx:203-224 | the editor starts with the loaded tags, tag references and attachments, an empty tag input and no error |
| PostEditor.EditorState.TagKeyDown | apps/backoffice/src/pages/posts/PostEditor.jsx:205-222 | any key but Enter, or a blank input, changes nothing; a known tag is reused regardless of case; otherwise the created tag is added to the known tags; a failed create changes nothing; the tag is appended once, the input is cleared, and the list stays free of duplicates |
| PostEditor.EditorState.RemoveTag | apps/backoffice/src/pages/posts/PostEditor.jsx:224 | the tag list loses exactly that reference |
| PostEditor.EditorState.RemoveAttachment | apps/backoffice/src/pages/posts/PostEditor.jsx:304 | the attachment list loses exactly the entries with that id |
| PostEditor.EditorState.AttachFile | apps/backoffice/src/pages/posts/PostEditor.jsx:270-295 | one file: a refused one sets its message, a failed upload sets the failure message and stops the loop, a successful one appends what it reports |
| PostEditor.EditorState.SelectAttachments | apps/backoffice/src/pages/posts/PostEditor.jsx:260-302 | the attachments gained are those of the files before the first failed upload; the error is that failure's message, or else the last refusal's |
| CareerForm.LoadedLinks | apps/backoffice/src/pages/careers/CareerForm.jsx:86-92 | one to five link rows: the first five stored links with their names mapped, or the single default website row when none is stored |
| CareerForm.LoadedHighlights | apps/backoffice/src/pages/careers/CareerForm.jsx:93-94 | one to five highlight rows: the first five stored contents with null as empty, or one empty row when none is stored |
| CareerForm.LoadCareer | apps/backoffice/src/pages/careers/CareerForm.jsx:86-108 | the ongoing box is ticked exactly when there is a start date and no end date; the lists keep their caps, the tags are the first stored ones in order, and the dates are cut to a month |
| CareerForm.UpdateHighlight | apps/backoffice/src/pages/careers/CareerForm.jsx:151-157 | only row idx changes, and it takes the longest prefix of the typed value that fits in 20 characters |
| CareerForm.AddHighlight | apps/backoffice/src/pages/careers/CareerForm.jsx:159-164 | an empty row is appended unless five rows exist already |
| CareerForm.RemoveHighlight | apps/backoffice/src/pages/careers/CareerForm.jsx:166-171 | row idx is removed and the others are kept in order, unless it is the only row left |
| CareerForm.HighlightEditsKeepCount | apps/backoffice/src/pages/careers/CareerForm.jsx:151-171 | every highlight edit keeps between one and five rows |
| CareerForm.HighlightEditsKeepShape | apps/backoffice/src/pages/careers/CareerForm.jsx:151-171 | every highlight edit keeps one to five rows, none longer than 20 characters |
| CareerForm.SubmitError | apps/backoffice/src/pages/careers/CareerForm.jsx:232-248 | the checks run in order (company name, role, start month, a non-blank highlight), each message given exactly when the earlier checks pass and that one fails, and none exactly when all pass |
| CareerForm.SubmitGateMatchesChecks | apps/backoffice/src/pages/careers/CareerForm.jsx:579 | while not saving, the submit button is enabled exactly when every check of handleSubmit (lines 232-248) passes |
| CareerForm.DateWithDay | apps/backoffice/src/pages/careers/CareerForm.jsx:263-264 | a seven-character month gets the day '-01' appended; any other value is sent as it is |
| CareerForm.PayloadShape | apps/backoffice/src/pages/careers/CareerForm.jsx:259-273 | no end date exactly when ongoing or no end month is given, no description, at most five links numbered from zero, the first five non-blank highlights of the form in order (untrimmed), and the first tag ids at most five |
| Strings.NonBlank | apps/backoffice/src/pages/careers/CareerForm.jsx:271 | the rows whose trimmed text is not empty, each from the input: one row gives itself or nothing |
| Strings.NonBlankConcat | apps/backoffice/src/pages/careers/CareerForm.jsx:271 | the rows kept from a + b are those of a followed by those of b |
| Strings.Trim | apps/api/routers/tags.py:37 | the longest slice of the input without leading or trailing whitespace |
| Strings.Lower | apps/api/routers/assets.py:38 | each character lower-cased in place, the length kept |
| Strings.Join | apps/client/src/api.js:20 | nothing for no parts, the part itself for one |
| Strings.ReplaceAllUnchanged | apps/api/routers/posts.py:405 | the text unchanged when the pattern does not occur |
| Strings.ReplaceAllAt | apps/api/routers/posts.py:405 | the text before the first occurrence, then the replacement, then the rest rewritten in turn |
| Strings.ReplaceAllAtMatch | apps/api/routers/posts.py:405 | text that begins with the pattern gives the replacement, then the rest rewritten |
| Strings.ReplaceAllCopies | apps/api/routers/posts.py:405 | text in which no occurrence begins is copied, then the rest rewritten |
| Sorting.Insert | apps/api/routers/tags.py:30 | the element is added to the list: the same elements plus one |
| Sorting.SortBy | apps/api/routers/tags.py:30 | the sorted list holds the same elements as the input |
| CareerForm.PayloadOfCheckedForm | apps/backoffice/src/pages/careers/CareerForm.jsx:232-273 | a form that passed the checks sends a non-empty trimmed company name and role, a start date and at least one highlight |
| CareerForm.PayloadNames | apps/backoffice/src/pages/careers/CareerForm.jsx:261-262 | non-blank names are sent trimmed and non-empty |
| CareerForm.PayloadContent | apps/backoffice/src/pages/careers/CareerForm.jsx:263-271 | a given start month and a non-blank highlight yield a non-empty start date and highlight list |
| FormLists.MapLinkName | apps/backoffice/src/pages/careers/CareerForm.jsx:14-24 | the result is always a link type: a stored name that is one is kept, any other becomes the 'other' type |
| FormLists.MapLinkNameIdempotent | apps/backoffice/src/pages/careers/CareerForm.jsx:22-24 | mapping an already mapped name changes nothing |
| FormLists.EditLinkOf | apps/backoffice/src/pages/careers/CareerForm.jsx:87-91 | a loaded link row has a link-type name and the stored URL, empty when missing |
| FormLists.RemoveIndex | apps/backoffice/src/pages/careers/CareerForm.jsx:137-142 | an index inside the list removes one element; any other index leaves the list as it is |
| FormLists.RemoveIndexIsSplice | apps/backoffice/src/pages/careers/CareerForm.jsx:140 | removing by index drops exactly that element and keeps the others in order |
| FormLists.RemoveIndexSubset | apps/backoffice/src/pages/careers/CareerForm.jsx:140 | every element left comes from the original list |
| FormLists.AddLink | apps/backoffice/src/pages/careers/CareerForm.jsx:127-135 | a default website row numbered by its position is appended, unless five rows exist already |
| FormLists.UpdateLink | apps/backoffice/src/pages/careers/CareerForm.jsx:144-149 | only row idx changes, and only the named field of it; the row count stays |
| FormLists.LinkEditsKeepCap | apps/backoffice/src/pages/careers/CareerForm.jsx:127-149 | adding, removing or updating a link keeps a list of at most five rows at most five rows |
| FormLists.AddTag | apps/backoffice/src/pages/careers/CareerForm.jsx:173-182 | a blank input changes nothing; otherwise the input is cleared and the trimmed name appended unless the cap is reached or it is already listed |
| FormLists.AddTagKeepsTags | apps/backoffice/src/pages/careers/CareerForm.jsx:173-182 | adding a tag keeps the list within its cap, trimmed, non-blank and free of duplicates |
| FormLists.TrimmedSnoc | apps/backoffice/src/pages/careers/CareerForm.jsx:179 | appending a trimmed non-empty name keeps every tag trimmed |
| FormLists.DistinctSnoc | apps/backoffice/src/pages/careers/CareerForm.jsx:178-179 | appending a name not already listed keeps the tags distinct |
| FormLists.RemoveTagKeepsTags | apps/backoffice/src/pages/careers/CareerForm.jsx:184-186 | removing a tag keeps the list within its cap, trimmed, non-blank and free of duplicates |
| FormLists.RemoveIndexAt | apps/backoffice/src/pages/careers/CareerForm.jsx:140 | element i after a removal is the old element i before the removed index and the old element i+1 after it |
| FormLists.TrimmedRemove | apps/backoffice/src/pages/careers/CareerForm.jsx:185 | removing a tag keeps every remaining tag trimmed |
| FormLists.DistinctRemove | apps/backoffice/src/pages/careers/CareerForm.jsx:185 | removing a tag keeps the tags distinct |
| FormLists.IndexOfElem | apps/backoffice/src/pages/projects/ProjectForm.jsx:322-323 | the first index holding the element, or -1 exactly when it is absent |
| FormLists.KeepFilled | apps/backoffice/src/pages/careers/CareerForm.jsx:268 | only rows with a non-blank name and URL are kept, never more than there were; a single row is kept exactly when it is filled |
| FormLists.Reindex | apps/backoffice/src/pages/careers/CareerForm.jsx:270 | each row is trimmed and numbered by its position, and none is added or lost |
| FormLists.PayloadLinksShape | apps/backoffice/src/pages/careers/CareerForm.jsx:267-270 | at most five links are sent, numbered from zero, with trimmed non-empty names and URLs: the first filled rows in order, all of them when there are at most five |
| FormLists.KeepFilledKeepsFilled | apps/backoffice/src/pages/careers/CareerForm.jsx:268 | when every row is filled, the filter returns them all in order |
| FormLists.KeepFilledConcat | apps/backoffice/src/pages/careers/CareerForm.jsx:268 | filtering a concatenation filters each part in turn; with the single-row case this fixes which rows are kept and keeps them in their original order |
| FormLists.KeepFilledSubset | apps/backoffice/src/pages/careers/CareerForm.jsx:268 | the filter keeps only rows of the list |
| FormLists.TagIds | apps/backoffice/src/pages/careers/CareerForm.jsx:252-258 | no more ids than names, and no zero id |
| FormLists.TagIdsStep | apps/backoffice/src/pages/careers/CareerForm.jsx:253-257 | one more name adds exactly its answer's id when the name is non-blank and the id is non-zero |
| FormLists.CollectTagIds | apps/backoffice/src/pages/careers/CareerForm.jsx:252-258 | the loop collects exactly the non-zero ids answered for the non-blank names, in order |
| FormLists.TagIdsFromAnswers | apps/backoffice/src/pages/careers/CareerForm.jsx:252-258 | every collected id is the answer for some non-blank tag name |
| ProjectForm.LoadedLinks | apps/backoffice/src/pages/projects/ProjectForm.jsx:145-151 | every stored link becomes a row with a link-type name and its stored URL, or the single default website row when none is stored |
| ProjectForm.LoadProject | apps/backoffice/src/pages/projects/ProjectForm.jsx:145-165 | the ongoing box is ticked exactly when there is a start date and no end date, the no-links box exactly when no link is stored; the form has at least one link row and dates cut to ten characters |
| ProjectForm.TagDragEnd | apps/backoffice/src/pages/projects/ProjectForm.jsx:318-331 | a tag drag only reorders: the same tags, each as often as before |
| ProjectForm.TagDragEndMoves | apps/backoffice/src/pages/projects/ProjectForm.jsx:318-331 | without a distinct drop target present in the list nothing moves; otherwise the dragged tag lands at the index the target tag had |
| ProjectForm.StartDateChanged | apps/backoffice/src/pages/projects/ProjectForm.jsx:512-519 | the start month takes the new value, the end date is kept or cleared, and nothing else changes |
| ProjectForm.StartDateChangedKeepsOrder | apps/backoffice/src/pages/projects/ProjectForm.jsx:512-519 | after a start month is picked, any end month left is not earlier than it, and an end month not earlier is kept |
| ProjectForm.OngoingChanged | apps/backoffice/src/pages/projects/ProjectForm.jsx:495-498 | the box takes the new value; checking it clears the end date and unchecking changes nothing else |
| ProjectForm.SubmitError | apps/backoffice/src/pages/projects/ProjectForm.jsx:335-346 | no error exactly when the title is non-blank and within 25 characters and the description within 100; the first failing check, in that order, names the message: blank title, title over 25, description over 100 |
| ProjectForm.TitleInput | apps/backoffice/src/pages/projects/ProjectForm.jsx:461 | what is typed is cut to its first 25 characters |
| ProjectForm.DescriptionInput | apps/backoffice/src/pages/projects/ProjectForm.jsx:477 | what is typed is cut to its first 100 characters |
| ProjectForm.EnabledSubmitPassesChecks | apps/backoffice/src/pages/projects/ProjectForm.jsx:706-710 | with the title and description typed through their inputs, an enabled submit button never meets a failing check of handleSubmit (lines 335-346) |
| ProjectForm.PayloadTitle | apps/backoffice/src/pages/projects/ProjectForm.jsx:335-358 | a form that passed the checks sends a trimmed, non-empty title within 25 characters |
| ProjectForm.TrimmedTitle | apps/backoffice/src/pages/projects/ProjectForm.jsx:358 | trimming a checked title is idempotent and keeps it within 25 characters |
| ProjectForm.PayloadShape | apps/backoffice/src/pages/projects/ProjectForm.jsx:357-372 | no end date while ongoing and otherwise the end date or null, no links when no-links is ticked and otherwise the filled rows numbered from zero, at most five, and the first six tag ids |
| SearchParams.GetIsFirst | apps/backoffice/src/pages/posts/PostList.jsx:31-36 | get finds nothing exactly when no pair has the name, and otherwise the value of the first pair that has it |
| SearchParams.GetConcat | apps/backoffice/src/pages/posts/PostList.jsx:31-36 | on two lists joined, get gives the first list's value when it has the name and the second's otherwise |
| SearchParams.Delete | apps/backoffice/src/pages/posts/PostList.jsx:57 | deleting never lengthens the list |
| SearchParams.Set | apps/backoffice/src/pages/posts/PostList.jsx:56-60 | setting adds at most one pair |
| SearchParams.GetSetIf | apps/backoffice/src/pages/posts/PostList.jsx:59-61 | a conditional set changes only the value read under that name, and only when the condition holds |
| SearchParams.GetDeleted | apps/backoffice/src/pages/posts/PostList.jsx:57 | after delete the name reads as absent and every other name reads as before |
| SearchParams.GetSet | apps/backoffice/src/pages/posts/PostList.jsx:56-60 | after set the name reads as the new value and every other name reads as before |
| SearchParams.SetLeavesOnePair | apps/backoffice/src/pages/posts/PostList.jsx:56-60 | after set exactly one pair carries the name |
| SearchParams.CountAppend | apps/backoffice/src/pages/posts/PostList.jsx:54-61 | the pairs carrying a name in two joined lists are those of each list together |
| SearchParams.CountDeleted | apps/backoffice/src/pages/posts/PostList.jsx:57 | after delete no pair carries the name |

Some definitions carry no contract of their own; the lemmas and contracts in the rows above state what they mean, and they have no row:

- the slug and heading helpers of the post editor (`PostEditor.SlugFromTitle`, `SlugChain`, `RewriteHeadings`, `Payload`, `CanSave`, `SkipError`, `FileExt`, `ExtOk`), pinned by the `PostEditor` lemmas on slugs, headings and the payload;
- the category tree operations `CategoryTree.Find`, `RemoveNode`, `Place`, `ReorderTreeById`, `MoveNodeToParent` and `MoveNodeToParentAsWritten`, pinned by the `CategoryTree` lemmas on kept nodes and placement;
- `PostList.PostsQuery`, `Updated`, `ApplyAll`, `RangeFrom`, `RangeTo` and `RowNumber`, `ClientApi.PostsQuery`, `ContentHtml.Rewrite` and `Replaced`;
- `Assets.PercentDecode`, `ContentDisposition`, `DayPath`, `RelPath` and `TypeAccepted`, `FormLists.PayloadLinks` and `NewLink`, `MessageList.SaveOutcome`;
- the listing predicates `PostsApi.Matches`, `Visible`, `Ordering` and `Candidate`, `Sorting.LexLess`, and `Periods.EndKey` and `Before`.
- `Strings.ReplaceAll`, SQL REPLACE scanning left to right, pinned by `Strings.ReplaceAllUnchanged`, `ReplaceAllAt`, `ReplaceAllAtMatch` and `ReplaceAllCopies`.

Proof helpers carry small contracts of their own that serve the proofs of the members above, and have no row either: `AdminRecords.UpdateKeepsOthers` (the map update inside `Relocated`), `Sorting.SortedBy`, `InsertSorted` and `SortBySorted` (the insertion sort behind `Sorting.SortBy`), `Sorting.LexLessTransitive`, `LexLessIrreflexive` and `LexLessTotal` (the text order the listings sort by), `PostsApi.IdsIncreasingSnoc`, and the step, split and algebra lemmas of `Strings`, `CategoryTree` and `PostEditor`.

## Left out

- SQL text, transactions and the database's own behaviour: tables are sequences of rows. Ordering by text uses code-point order, where the database's utf8mb4_unicode_ci collation (apps/api/core/db_init.py:186) may differ. LIKE search (apps/api/routers/posts.py:160) is a substring test without wildcard characters, case-insensitive through ASCII lower-casing of both sides as the collation makes it.
- Equality under that collation, as in the tag-name lookup (apps/api/routers/tags.py:41) and the slug checks (apps/api/routers/posts.py:74-78), is modelled by `Strings.SameText`: equal after ASCII lower-casing. The collation's accent and other Unicode foldings and its ignoring of trailing spaces are not modelled.
- Primary and foreign keys of the link tables (post_tags and post_attachments at apps/api/core/db_init.py:89-104, project_tags and career_tags): the database refuses a duplicate or unknown tag or attachment id with an IntegrityError, which the API answers with a 500. `PostsApi.PostStore.InsertTagLinks`, `InsertAttachmentLinks`, `CareersApi.CareerStore.InsertTags` and `ProjectsApi.ProjectStore.InsertTags` accept such ids and insert the rows as given, duplicates included.
- String lengths in the React code: JavaScript's `length` and `slice` count UTF-16 code units, the model counts characters. `CareerForm.UpdateHighlight` (slice 20), `ProjectForm.SubmitError`, `TitleInput` and `DescriptionInput` (title 25, description 100), `Cards.ProjectCardView`, `ListPages.IntroPayload`, `ListPages.ProjectListPage.IntroSave` (intro 20), `MessageList.Truncate` and `MessageList.Planned` (title 20, content 120) agree with the source on text inside the Basic Multilingual Plane, Hangul included. A character outside it, such as an emoji, counts twice in the source, so a title of 13 emoji is refused there and accepted here, and `slice` can cut such a character in half where `Strings.Take` never does.
- Column widths such as tags.name VARCHAR(50) (apps/api/core/db_init.py:59): the model stores strings of any length, where the database would refuse or cut an overlong one.
- Timestamps written by the database (created_at, updated_at) and the UUID of an uploaded file are not modelled; the upload's UUID and date are passed in as parameters.
- ISO date and time parsing and formatting, including time zones (`_parse_published_at`, `_isoformat_utc`, `getLocalISOMin`, `toISOString`): instants are integer seconds. The update check's "same first 16 characters" is modelled as "the same minute".
- The filesystem: `mkdir`, `write_bytes` and `shutil.move` in assets.py, careers.py and projects.py. The upload model states where a file would go and the URL returned, not the write. The directory is also created when an upload is then refused with 413; that is not modelled.
- The fallback `SELECT id FROM assets ORDER BY id DESC LIMIT 1` after `LAST_INSERT_ID()` (apps/api/routers/assets.py:111-113), and every 500 path that needs the database's insert id to be missing: the model always has an id.
- The `MAX(sort_order)+1` fallback for a career or project without a sort order. It is never reached, because the request body always carries an integer.
- The daily_stats update on a public post read is modelled as total_views per day (`dailyViews`) next to the post's view_count. visitor_count, which the same statement also raises by one, and the swallowed SQL errors (apps/api/routers/posts.py:278-298) are not modelled.
- A prefix's posts keep a NULL prefix_id after delete_post_prefix through the foreign key. The posts table is not part of the prefix model.
- The delete endpoints: delete_post (apps/api/routers/posts.py:488-497), delete_category (apps/api/routers/categories.py:195-207), delete_career (apps/api/routers/careers.py:278), delete_project (apps/api/routers/projects.py:265) and delete_message. Each is a single DELETE with a 404 check and outside the modelled core.
- The listing endpoints list_careers (apps/api/routers/careers.py:47-101) and list_projects (apps/api/routers/projects.py:59-116) are not modelled. They assemble rows from joins; the forms and cards take their result as input.
- `FileResponse` and the download's file read: the model states the `Content-Disposition` header only. The ASCII fallback does not escape '"' in the source, and the model keeps that behaviour without a property about it.
- Canvas resizing (`resizeToSquare`, `resizeToRect`), TinyMCE, the paste hook and the image upload that inserts `<img>` tags (`handleMultiImageChange`): browser APIs and I/O.
- The `attachmentUploading` and `saving` flags, alerts, navigation after a save, `saveSuccess` and dialog open/close state. They have no bearing on the data sent.
- React effects, timers and `Promise.all` cancellation flags: their ordering is a rendering concern. Fetch results arrive as parameters.
- The window width is a parameter. The About page's resize handler does not re-clamp the carousel index, and the model keeps that (About.ResizeKeepsStaleIndex).
- The About carousel's card width computation (`parseFloat`, ResizeObserver): floating point and layout. `formatBytes` is modelled exactly in integer tenths, rounding a tie up as `toFixed` does.
- A non-numeric `page` URL parameter (parseInt giving NaN): pages are integers in the model.
- `localeCompare` on dates is code-point order. The compared strings are ASCII digits and dashes, where the two agree.
- JSON parsing of an OK response and of a stored user, and `JSON.stringify`: parsing is a function parameter, serialised users are strings.
- Request bodies and `credentials: 'include'` are passed through unmodelled. The verbs of get, post, put, delete and patch are the `verb` argument of `ApiClient.Client.Request`.
- `dispatchEvent` of 'session-expired' is modelled as a counter of dispatched events.
- `getPermissions` (apps/backoffice/src/authProvider.js:95) always resolves 'admin'; it holds no rule to model.
- Theme and overlay class toggling on the document, and the sidebar's hover and width animation, in AdminLayout.
- The About tag chips (apps/client/src/pages/About.jsx:152-160): rendering only.
- CategoryList's `fetchTree`, dialogs, expand and collapse state, and `handleDragLeave` and `handleDragEnd`. The same goes for the CareerList and ProjectList drag-leave and drag-end handlers, which only clear the highlight.
- `handleDelete` in CareerList, ProjectList and PostList, and `deleteMessage` in MessageList: a confirm dialog, a DELETE and a refetch.
- PostList's fetch of categories and prefixes for its filter menus: a plain GET whose result only fills a menu.
- Whitespace and case: one space class (Strings.IsSpace: ASCII white space, U+00A0, U+3000 and U+FEFF) stands for JavaScript's `\s` and `trim()` and for Python's `str.strip()` in careers.py, projects.py, posts.py and tags.py. The two differ outside ASCII: Python keeps U+FEFF, and both strip further Unicode spaces (U+2000 to U+200A, U+2028, U+2029 and others) that the model keeps. `toLowerCase()` and SQL case folding are ASCII only.
- Digits: Strings.AllDigits is ASCII '0' to '9' and stands for both `/^\d+$/` and Python's `str.isdigit()` in normalize_career_tags and normalize_project_tags. `isdigit()` also accepts other Unicode digits. On a superscript such as '²', `int()` then raises and the request fails validation. On Arabic-Indic digits, `int()` succeeds. The model drops both kinds of string.

## Findings

| source | as written | input that shows it | evidently intended | confidence | as-written member | corrected member |
|---|---|---|---|---|---|---|
| apps/backoffice/src/pages/categories/CategoryList.jsx:67-85 | moveNodeToParent finds the target list before splicing the dragged node out, so a drop onto a row inside the dragged node's own subtree re-inserts the node into the detached subtree and the whole subtree leaves the tree | the tree [A(1) with child B(2)], dragging category 1 onto B's row (target parent 1, index 0), gives an empty tree | refuse such a drop and keep every category | not executed | CategoryTree.MoveIntoOwnChildLosesNodes | CategoryTree.MoveKeepsNodes |

`CategoryTree.MoveNodeToParentAsWritten` is the function as the page writes it; `CategoryTree.AsWrittenDropsSubtree` shows that every drop inside the dragged subtree loses nodes there. `CategoryTree.MoveNodeToParent` is the corrected definition, which answers such a drop with an undefined parent and the tree unchanged. The page model `CategoryPage.CategoryListPage.HandleDrop` uses it.
