# Booklogue catalogue core in Dafny

Booklogue is a book catalogue. An Express/Mongoose server stores books, reviews, users and per-user reading progress. A React client lists and filters books, uploads PDFs with metadata read from the file, and lets readers review, like and read them. This project models the logic of both sides and proves properties of it.

Server side:
- The reading-progress upsert and the library query.
- The profile merge.
- The review store:
  - create, with the book's rating summary recomputed;
  - the like toggle;
  - owner-only update and delete;
  - listing and the featured review.
- The book catalogue query with its 404 rules.
- The schemas' defaults and validation.
- The upload filter.

Client side:
- The pure helpers in `formatters.js`, `pdfMetadataExtractor.js` and `generateCover.js`.
- The form validators and local state transitions of the pages and hooks that use them.

The database is a class `Store.Db`. Its books, reviews and progress records are sequences, and its users are a map. Handlers that change the store are methods with `modifies db`. Each one ties the new store to pure functions of the old one, and lemmas prove the promised properties of those functions.

The store's invariant holds distinct ids, one review per book and user, and valid documents. The agreement of a review's `totalLikes` with its number of likers is not part of it. Creating a review and toggling a like keep that agreement. An owner's update passes the whole request body to the database, so it can set `likes` or `totalLikes` directly and break it.

Client components and hooks whose state React updates are classes. Their fields are the component state. Their methods are the event handlers and effects. A request's outcome is passed in as a parameter: a response, or a failure with the server's message.

The time ("now", in milliseconds), random numbers and the current year are parameters too. A JavaScript falsy string is `""`. `Option` is used where `undefined` and `0` behave differently.

Modules:
- Shared: `Wrappers`, `Text`, `ListOps`, `Query`.
- Server: `BookModel`, `ReviewModel`, `ProgressModel`, `UserModel`, `Store`, `BookController`, `ReviewController`, `UserController`, `UploadMiddleware`.
- Client: `Formatters`, `PdfMetadata`, `GenerateCover`, `RegisterPage`, `UploadBookPage`, `WriteReviewPage`, `ReviewEditor`, `ProfilePage`, `ReaderPage`, `BookReader`, `BookContext`, `UseReviews`, `DiscoverPage`.

Where the code and the documented behaviour of the project differ, the model follows the code:
- `updateReadingProgress` does not check that the book exists, so no 404 path is modelled for it.
- A record created with status `finished` gets no `finishedAt`. Only the update path sets it.
- In `bookController.js` only the handlers assigned to `module.exports` (lines 46-131) are modelled. The `exports.getBooks`/`exports.createBook` above them are overwritten.
- `handlePageChange` in the reader page compares against a `null` page count. In JavaScript that compares as 0, so before the document has loaded every typed page becomes page 1.
- The write-review page computes its minute estimate without the empty-text guard of `calculateReadingTime`, so empty content shows 1 minute.
- `likeReview` saves the document, so the pre-save hook recomputes `readingTime`. `updateReview` uses `findByIdAndUpdate`, which skips the hook.

## Model

| member | source | states |
|---|---|---|
| UserController.MergeProfile | server/controllers/userController.js:28-37 | each of username, email, bio, avatar and favoriteGenres is replaced only by a supplied (truthy) value; the password only when given; the id never changes |
| UserController.MergeProfileIdempotent | server/controllers/userController.js:28-37 | repeating a profile update changes nothing more, and an empty update changes nothing |
| UserController.UpdateUserProfile | server/controllers/userController.js:24-55 | a missing user gives 404 and no change; otherwise only that user becomes the merged profile and the reply omits the password; books, reviews and progress are unchanged |
| UserController.UserLibrary | server/controllers/userController.js:60-77 | exactly the user's records (with the status, when one is given), each once, sorted by `lastReadAt` newest first |
| UserController.UpdatedProgress | server/controllers/userController.js:91-104 | an unknown status is an enum error whose message is "ReadingProgress validation failed: status: `s` is not a valid enum value for path `status`."; status is replaced only by a truthy one; currentPage whenever supplied (0 included); lastReadAt becomes now; a supplied note or highlight is appended after the old entries as the one new last entry, with the request's fields and createdAt = now, and without one the list is unchanged; finishedAt is set only by `finished` when unset; startedAt never changes |
| UserController.CreatedProgress | server/controllers/userController.js:105-114 | an unknown status is the same prefixed enum error; a new record defaults to want-to-read and page 0; startedAt is now only for currently-reading; notes and highlights are dropped; finishedAt stays unset |
| UserController.UpdateReadingProgress | server/controllers/userController.js:82-123 | the pair's record is updated in place, or a new one is appended; one record per pair is kept; every other record and the rest of the store are unchanged |
| UserController.UpdateProgressAt | server/controllers/userController.js:91-104 | the existing record is edited field by field and saved exactly as `UpdatedProgress` describes; a status that does not parse saves nothing; the store stays valid |
| UserController.ReplayKeepsHistory | server/controllers/userController.js:93-113 | over any series of updates a set finishedAt never changes, startedAt never changes, and notes only grow at the end |
| UserController.FinishTwiceKeepsFirstTime | server/controllers/userController.js:100-102 | marking a book finished twice keeps the first completion time |
| ProgressModel.ParseStatus | server/models/ReadingProgress.js:15-19 | only the three status spellings are accepted, each mapping back to its own spelling |
| ProgressModel.StampNote | server/models/ReadingProgress.js:36-40 | a stored note keeps the request's page and content and gets createdAt = now |
| ProgressModel.StampHighlight | server/models/ReadingProgress.js:41-46 | a stored highlight keeps text, page and colour and gets createdAt = now |
| ProgressModel.DefaultProgress | server/models/ReadingProgress.js:4-49 | the schema defaults: want-to-read, page 0, progress 0 within 0..100, no start or finish time, lastReadAt = now, no notes or highlights |
| ReviewModel.ParseStatus | server/models/Review.js:55-59 | only published, draft and archived are accepted |
| ReviewModel.StatusRoundTrip | server/models/Review.js:55-59 | every status parses back from its spelling |
| ReviewModel.ReadingTime | server/models/Review.js:67-73 | the hook's minutes are ceil(pieces / 200) for the pieces of the content split on white-space runs, hence at least 1 |
| ReviewModel.CheckFields | server/models/Review.js:15-31 | a new review passes exactly when the title is present and at most 200 characters after trimming, the content is present with at least 50 characters, and the rating is given within 1..5 |
| ReviewModel.CreateReviewDoc | server/models/Review.js:4-62 | a created review holds the trimmed title, the content and the rating sent, and is valid, published, not featured, not a spoiler unless asked, with no likes and zero counters; it fails with 500 and the first failing check's message exactly when the field checks fail |
| ReviewController.ListReviews | server/controllers/reviewController.js:7-35 | a negative skip is an error; otherwise the page is exactly the slice at (page-1)*limit of the reviews of the requested status (default published) and book (when given) sorted newest first, at most `limit` (default 10) of them; total = number of matches; totalPages = ceil(total/limit) |
| ReviewController.FindReview | server/controllers/reviewController.js:40-54 | the review with the id, or 404 "Review not found" exactly when none has it |
| ReviewController.FeaturedReview | server/controllers/reviewController.js:191-202 | the first review that is both featured and published, or none exactly when no review is |
| ReviewController.AverageRating | server/controllers/reviewController.js:86-87 | the mean times the count equals the sum of the ratings |
| ReviewController.SumRatingsBounds | server/controllers/reviewController.js:87 | with every rating in 1..5 the sum lies between the count and five times it |
| ReviewController.AverageWithinStars | server/controllers/reviewController.js:86-87 | the mean of one or more valid ratings lies within 1..5 |
| ReviewController.RatedBook | server/controllers/reviewController.js:86-92 | the book's totalReviews is the number of its published reviews and its averageRating their mean; updatedAt becomes now; every other field is kept and a valid book stays valid |
| ReviewController.CreateReview | server/controllers/reviewController.js:59-102 | 404 when the book is missing, 400 when the user already reviewed it, 500 when validation fails, each with no change; otherwise the review is appended and only that book's rating summary is recomputed |
| ReviewController.AddRatedReview | server/controllers/reviewController.js:76-92 | the new published review is appended and the reviewed book alone gets the rating summary recomputed over the stored reviews; the store stays valid |
| ReviewController.CreatedAverageWithinStars | server/controllers/reviewController.js:86-92 | after a create the book's average rating is within 1..5 |
| ReviewController.PatchErrors | server/controllers/reviewController.js:119-123 | an update fails validation exactly when a supplied title, content, rating or status breaks the schema, naming the failing path and its message |
| ReviewController.ApplyPatch | server/controllers/reviewController.js:119-122 | every path the body supplies replaces the stored one (title trimmed; content, rating, isSpoiler, book, user, likes, totalLikes, totalComments, isFeatured and readingTime as given); a path left out keeps its value; id and createdAt are kept and updatedAt becomes now |
| ReviewController.PatchReview | server/controllers/reviewController.js:119-124 | the update fails with 500 and "Validation failed: <path>: <message>" iff a supplied path fails its validator; otherwise it is the patched review, with the status parsed from the body when given and kept when not |
| ReviewController.PatchKeepsValid | server/controllers/reviewController.js:119-122 | an update that passes the validators leaves a valid review valid; one that sets neither likes nor totalLikes keeps the counter equal to the number of likers |
| ReviewController.PatchCanBreakLikes | server/controllers/reviewController.js:119-122 | the body is not filtered: an update setting only totalLikes passes the validators and leaves the counter different from the number of likers |
| ReviewController.UpdateReview | server/controllers/reviewController.js:107-130 | 404 for an unknown id and 403 for another user's review, with no change; a failing validator gives its 500 with no change; a body that moves the review onto a book and user already reviewed is refused by the unique index with no change; otherwise exactly that review becomes the patched one; the book's rating summary is not recomputed |
| ReviewController.DeleteReview | server/controllers/reviewController.js:135-152 | 404 and 403 as for update; otherwise exactly that review is removed and the book is not recomputed |
| ReviewController.RemoveAll | server/controllers/reviewController.js:169 | the filter drops every occurrence of the user and keeps everyone else |
| ReviewController.ToggleLike | server/controllers/reviewController.js:165-177 | a liker is removed and the counter decremented; otherwise the user is appended and the counter incremented; the other likers are unchanged; the saved review's readingTime is recomputed and updatedAt becomes now; every other field (title, content, rating, status, isSpoiler, isFeatured, totalComments, createdAt, ids) is kept |
| ReviewController.RemoveAllOnce | server/controllers/reviewController.js:169-170 | removing a user listed once from duplicate-free likes shortens them by exactly one |
| ReviewController.ToggleKeepsLikesConsistent | server/controllers/reviewController.js:165-175 | totalLikes == number of likers, with no duplicates, is preserved by a toggle |
| ReviewController.ToggleTwiceRestores | server/controllers/reviewController.js:165-175 | two toggles by one user restore who likes the review and the counter |
| ReviewController.LikeReview | server/controllers/reviewController.js:157-186 | 404 for an unknown id; otherwise only that review toggles, and the reply's isLiked is the negation of prior membership with the new count |
| BookModel.NewBook | server/models/Book.js:3-18 | every body path becomes the book's: title and author trimmed; description, genres, coverImage, pages, language, averageRating and totalReviews default to "", [], "", 0, English, 0 and 0 when absent; the optional paths as given; id as given and both timestamps = now |
| BookModel.ApplyFields | server/controllers/bookController.js:88-92 | every supplied path replaces the stored one (title and author trimmed, rating summary included); a path left out keeps its value; id and createdAt are kept and updatedAt is stamped |
| BookModel.ApplyFieldsIdempotent | server/controllers/bookController.js:88-92 | applying the same fields twice is applying them once, up to the time stamp |
| BookModel.ApplyEmptyBody | server/controllers/bookController.js:88-92 | an empty body changes only updatedAt |
| BookModel.BookErrors | server/models/Book.js:4-8 | validation passes exactly when title, author and description are present and no genre entry is empty (`genres: [{type: String, required: true}]`); a failure names the path and "Path `<path>` is required." |
| BookModel.FieldErrors | server/controllers/bookController.js:88-92 | the update validators pass exactly when every supplied title and author is non-empty after trimming, a supplied description is non-empty and a supplied genre list has no empty entry |
| BookModel.FieldErrorsAgree | server/models/Book.js:4-8 | on a valid stored book, checking only the supplied paths gives the same verdict and message as validating the whole updated book, and a passing update keeps the book valid |
| BookController.ListBooks | server/controllers/bookController.js:46-74 | a negative skip is an error; otherwise the page is exactly the slice at (page-1)*limit of the books of the genre (when given) whose title, author or description contains the search case-insensitively, sorted newest first, at most `limit` of them; defaults page 1 and limit 12; total = number of matches and totalPages = ceil(total/limit) |
| BookController.UnfilteredTotal | server/controllers/bookController.js:62-68 | with no filters every book matches, so total is the catalogue size |
| BookController.FindBook | server/controllers/bookController.js:112-121 | the book with the id, or 404 "Book not found" exactly when none has it |
| BookController.FeaturedBooks | server/controllers/bookController.js:123-131 | at most five books (fewer only when the catalogue is smaller), newest createdAt first, taken from the catalogue |
| BookController.FeaturedAreNewest | server/controllers/bookController.js:123-131 | the featured books and the books left out make up the catalogue, and no book left out is newer than one shown |
| BookController.CreateBook | server/controllers/bookController.js:76-84 | a valid body appends the new book; an invalid one gives 400 with "Book validation failed: <path>: <message>" and no change |
| BookController.UpdateBook | server/controllers/bookController.js:86-99 | the update validators run first on the supplied paths: a failing one gives 400 with "Validation failed: <path>: <message>" and no change, even for an unknown id; then 404 for an unknown id with no change; otherwise exactly that book becomes ApplyFields of it and stays valid |
| BookController.DeleteBook | server/controllers/bookController.js:101-110 | 404 for an unknown id; otherwise exactly that book is removed and the rest keep their order |
| Query.SortDesc | server/controllers/bookController.js:58-59 | `.sort('-key')` gives the same elements in descending key order |
| Query.Take | server/controllers/bookController.js:60 | `.limit(n)` keeps the first min(\|n\|, length) elements, all of them for 0 |
| Query.Paginate | server/controllers/bookController.js:58-61 | a negative skip is an error; otherwise at most `limit` elements, the consecutive ones from position (page-1)*limit, and none past the end |
| Query.PageOfSorted | server/controllers/bookController.js:58-61 | a page of a sorted result stays sorted |
| Query.TotalPages | server/controllers/bookController.js:66 | none for a limit of 0; otherwise ceil(count/limit): the pages cover the count and one page fewer does not, and a non-empty result has at least one page |
| Query.PagesCoverResult | server/controllers/bookController.js:58-61 | every element of the result sits on page k/limit+1 at its place |
| Query.FindPage | server/controllers/bookController.js:58-69 | a negative skip is a 500 error; otherwise the page is exactly Paginate of the matches sorted by descending key: at most `limit` matching elements, in order; the page asked for; the matches' count as total and TotalPages of it |
| Query.EveryMatchOnSomePage | server/controllers/bookController.js:58-69 | with a positive limit every matching element is shown on some page |
| UploadMiddleware.ExtName | server/middleware/upload.js:29 | `path.extname` is empty exactly when the base name is `..` or has no dot after its first character; otherwise it is the proper tail of the base name from its last dot, holding no other dot and no slash |
| UploadMiddleware.ExtNameOfDottedName | server/middleware/upload.js:29 | only the last dot counts: a name `a.b.suffix` (such as `my.book.pdf`) has the extension `.suffix` |
| UploadMiddleware.ExtensionSuffix | server/middleware/upload.js:29 | a non-empty extension is a dot followed by a suffix with no dot and no slash |
| UploadMiddleware.ExtNameOfStemAndSuffix | server/middleware/upload.js:18 | a stem not starting with a dot, a dot and a dot-free suffix have exactly that suffix as extension |
| UploadMiddleware.FileFilter | server/middleware/upload.js:26-36 | accept exactly when the lower-cased extension and the MIME type as given each contain one of pdf, epub, jpeg, jpg, png or gif; otherwise "Only PDF and EPUB files are allowed" |
| UploadMiddleware.DotFileRejected | server/middleware/upload.js:29-34 | a name whose only dot is its first character has no extension and is rejected |
| UploadMiddleware.StoredFileName | server/middleware/upload.js:16-19 | the stored name starts with the time and a dash |
| UploadMiddleware.StemLacksSeparators | server/middleware/upload.js:17 | the numeric part of a stored name holds no dot and no slash |
| UploadMiddleware.StoredNameKeepsExtension | server/middleware/upload.js:16-19 | the stored name keeps the original extension exactly |
| Formatters.DaysBetween | client/src/utils/formatters.js:6-7 | the whole number of days between the two times, rounded down |
| Formatters.FormatDate | client/src/utils/formatters.js:9-14 | Today, Yesterday, "d days ago" under 7 (a future date gives "-d days ago"), floor(d/7) "weeks ago" under 30, floor(d/30) "months ago" under 365, otherwise floor(d/365) "years ago", always plural |
| Text.Trim | client/src/utils/formatters.js:27 | the result has no white space at either end, sits in the text with only white space around it, and a text already without such white space is returned as it is |
| Text.TrimUnique | client/src/utils/formatters.js:27 | any slice with no white space at either end and only white space around it is the trimmed text, so Trim is fully determined |
| Formatters.TruncateText | client/src/utils/formatters.js:24-28 | "" for empty text, the text when it fits, otherwise Trim of the first maxLength characters followed by "...", so at most maxLength+3 long |
| Formatters.CalculateReadingTime | client/src/utils/formatters.js:31-36 | 0 exactly for empty text, otherwise ceil(pieces/200) |
| Formatters.ClientAgreesWithServer | client/src/utils/formatters.js:31-36 | the client estimate equals the server's stored readingTime except on empty text (0 against 1) |
| Formatters.FormatReadingTime | client/src/utils/formatters.js:39-43 | "Less than a minute" below 1, otherwise "N min read" (so "1 min read" for 1) |
| Formatters.GetInitials | client/src/utils/formatters.js:46-54 | "?" for an empty name, otherwise at most two characters with no lower-case letter |
| Formatters.InitialsOfOneWord | client/src/utils/formatters.js:46-54 | a one-word name gives its upper-cased first letter |
| Formatters.InitialsOfTwoWords | client/src/utils/formatters.js:46-54 | "First Last" gives both upper-cased first letters |
| Formatters.InitialsOfLongName | client/src/utils/formatters.js:46-54 | a name of three or more parts gives the upper-cased first letters of the first two only |
| Formatters.GetStarRating | client/src/utils/formatters.js:73-83 | full = floor(r), half = 1 iff the fraction is at least 0.5, and the three counts sum to 5, none negative for 0..5 |
| Formatters.JsRound | client/src/utils/formatters.js:88 | `Math.round` is the integer within half of x, halves rounding up |
| Formatters.Percentage | client/src/utils/formatters.js:88 | on exact reals, the integer nearest value/total·100 with exact halves rounded up (within 0.5 of it), and within 0..100 for a part of the whole |
| Formatters.FormatPercentage | client/src/utils/formatters.js:86-89 | "0%" for a zero total, otherwise Percentage (on exact reals) followed by "%" |
| Formatters.DashSpaces | client/src/utils/formatters.js:97 | replacing white-space runs leaves no white space |
| Formatters.DashSpacesIsJoin | client/src/utils/formatters.js:97 | replacing each white-space run by a dash equals joining the white-space pieces with dashes |
| Formatters.KeepSlugChars | client/src/utils/formatters.js:98 | only word characters and dashes remain, and a string of them is unchanged |
| Formatters.KeepSlugCharsCounts | client/src/utils/formatters.js:98 | every word character and dash is kept as often as it occurs, every other character is dropped |
| Formatters.KeepSlugCharsAppend | client/src/utils/formatters.js:98 | filtering a concatenation filters each part, so the kept characters keep their order |
| Formatters.CollapseDashes | client/src/utils/formatters.js:99 | no double dash remains, and a string without one is unchanged |
| Formatters.CollapseKeepsOtherChars | client/src/utils/formatters.js:99 | collapsing removes dashes only |
| Formatters.Slugify | client/src/utils/formatters.js:92-100 | the result is lower-case word characters and dashes with no double dash |
| Formatters.SlugifyIdempotent | client/src/utils/formatters.js:92-100 | slugifying a slug changes nothing |
| Formatters.SlugifyOfWords | client/src/utils/formatters.js:92-100 | lower-case words of word characters joined by single spaces give the same words joined by dashes |
| Formatters.FirstNonEmpty | client/src/utils/formatters.js:103-111 | empty exactly when every candidate is, otherwise the first non-empty candidate |
| Formatters.FirstNonEmptyPicks | client/src/utils/formatters.js:103-111 | the first non-empty candidate is the one chosen |
| Formatters.ParseErrorMessage | client/src/utils/formatters.js:103-111 | the server's message when there is one, else the request error's message, else "An unexpected error occurred"; never empty |
| Formatters.IsValidEmail | client/src/utils/formatters.js:123-126 | true exactly when the string splits as non-empty local part, @, non-empty domain head, dot, non-empty tail, none containing white space or @ |
| Formatters.EmailMatchIff | client/src/utils/formatters.js:124 | the pattern matches exactly when the string has no white space, exactly one @, a non-empty local part and a dot inside the domain with text on both sides |
| PdfMetadata.CropToFill | client/src/utils/pdfMetadataExtractor.js:28-44 | the rendered rectangle keeps the page's aspect ratio, covers the 140×210 card in both dimensions, touches it in one, and is centred (2·offset + size = card size, offsets ≤ 0, one of them 0) |
| PdfMetadata.WiderPage | client/src/utils/pdfMetadataExtractor.js:32-37 | a page wider than 2:3 is rendered 210 high and wider than 140 |
| PdfMetadata.TallerPage | client/src/utils/pdfMetadataExtractor.js:38-44 | any other page is rendered 140 wide and at least 210 high |
| PdfMetadata.RenderScale | client/src/utils/pdfMetadataExtractor.js:53 | the render scale times the page's native size is the rendered size |
| PdfMetadata.ExtractPdfMetadata | client/src/utils/pdfMetadataExtractor.js:8-79 | none exactly when the file cannot be read; otherwise title = Title, else the name without its first ".pdf", else "Untitled Book"; author = Author, else "Unknown Author"; the page count; the creation year, else the current year |
| PdfMetadata.ExtractBasicPdfInfo | client/src/utils/pdfMetadataExtractor.js:101-109 | the title is the file name with its first ".pdf" removed, character for character, with each underscore replaced by a space; no author, 0 pages, no cover, the current year |
| PdfMetadata.BasicTitleOfPdfName | client/src/utils/pdfMetadataExtractor.js:103 | for a dot-free stem, `stem.pdf` gives the stem with underscores as spaces |
| GenerateCover.CoverTitle | client/src/utils/generateCover.js:1-2 | an empty title becomes "Untitled"; any other is kept |
| GenerateCover.WrapFrom | client/src/utils/generateCover.js:36-47 | the wrap always draws at least one line (the last is always drawn) |
| GenerateCover.WrapKeepsWords | client/src/utils/generateCover.js:36-47 | the lines put back together are the words in order, each followed by a space, so every word is in exactly one line |
| GenerateCover.WrapBaselines | client/src/utils/generateCover.js:33-42 | line k is drawn at 0.65·240 + 14k |
| GenerateCover.WrapLinesFit | client/src/utils/generateCover.js:36-46 | a drawn line fits 0.8·160, or it is one word that does not fit alone |
| GenerateCover.WrapIsGreedy | client/src/utils/generateCover.js:37-45 | a line is closed only when the next word does not fit on it |
| GenerateCover.DrawLines | client/src/utils/generateCover.js:40-47 | one trimmed, centred text call per line, in order |
| GenerateCover.WrapStep | client/src/utils/generateCover.js:36-46 | one turn of the loop keeps the lines drawn so far plus the lines still to come equal to the whole wrap |
| GenerateCover.GenerateBookCover | client/src/utils/generateCover.js:1-57 | the loop draws the upper-cased initial, the wrapped title lines and, when there is an author, the author line, exactly as the specification function says |
| GenerateCover.WrapLines | client/src/utils/generateCover.js:31-47 | the word loop collects exactly the greedy wrap lines of the title, a line breaking only before a word that would overflow 80% of the width and never before the first word |
| RegisterPage.ValidateForm | client/src/pages/Register.jsx:30-56 | the errors are exactly FormErrorsOf the form: a username error iff shorter than 3 (that message first) or not all of [a-zA-Z0-9_]; an email error iff the e-mail pattern fails; a password error iff shorter than 6; a confirm error iff the passwords differ; no errors iff the form is valid |
| RegisterPage.MapBackendErrors | client/src/pages/Register.jsx:77-83 | exactly BackendErrorsOf the list: every reported path gets one message, the one of its last entry |
| RegisterPage.FormErrorsUnique | client/src/pages/Register.jsx:30-56 | the checks determine the messages: a form has exactly one map of them |
| RegisterPage.BackendErrorsUnique | client/src/pages/Register.jsx:77-83 | the server's list determines the messages shown, the last entry winning |
| RegisterPage.Register.HandleChange | client/src/pages/Register.jsx:18-28 | the field takes the value and only that field's message is cleared |
| RegisterPage.Register.HandleSubmit | client/src/pages/Register.jsx:58-90 | data is sent iff every check passes, without confirmPassword; an invalid form shows exactly the validator's messages; a rejection shows exactly the backend field errors, last entry per path; any other failure shows the server's message or the fallback; only success goes home |
| UploadBookPage.ToggleGenre | client/src/pages/UploadBook.jsx:59-71 | a ticked genre is removed wherever it occurs and every other genre keeps its membership; an unticked one is appended at the end |
| UploadBookPage.ToggleAbsentTwice | client/src/pages/UploadBook.jsx:59-71 | ticking and unticking an absent genre restores the list |
| UploadBookPage.TogglePresentTwice | client/src/pages/UploadBook.jsx:59-71 | unticking and re-ticking a genre listed once keeps the others in order and moves it to the end |
| UploadBookPage.PdfByName | client/src/pages/UploadBook.jsx:86 | a file whose name ends in ".PDF" in any case is read as a PDF whatever its type |
| UploadBookPage.SubmitError | client/src/pages/UploadBook.jsx:147-163 | the checks in order: no genre, description under 50, no file; the first failure is the message, and none iff all pass |
| UploadBookPage.UploadBook.HandleGenreChange | client/src/pages/UploadBook.jsx:59-71 | only the genres change, as ToggleGenre says |
| UploadBookPage.UploadBook.HandleChange | client/src/pages/UploadBook.jsx:54-57 | the named input (title, author, description or language) takes the typed value; no other field of the form or the page changes |
| UploadBookPage.UploadBook.RefreshCover | client/src/pages/UploadBook.jsx:42-48 | a cover is generated only when there is a title, no cover yet and no extraction running |
| UploadBookPage.UploadBook.HandleEbookUpload | client/src/pages/UploadBook.jsx:73-139 | a file over 50 MiB only sets the error and is not kept; a PDF's metadata overwrites exactly title, author, pages, year and cover; no metadata, an exception or a non-PDF overwrites only the title |
| UploadBookPage.UploadBook.HandleSubmit | client/src/pages/UploadBook.jsx:141-216 | nothing is sent and loading is left as it was when a check fails; otherwise the book carries the form cover or a generated one and the stored file's address, and a created book is shelved as want-to-read at page 0 |
| WriteReviewPage.ApplyEdit | client/src/pages/WriteReview.jsx:43-53 | only the edited field changes; the checkbox stores `checked`, the text inputs `value` |
| WriteReviewPage.CountAfter | client/src/pages/WriteReview.jsx:50-52 | the counter changes only on a content edit, and then to its length |
| WriteReviewPage.CountTracksContent | client/src/pages/WriteReview.jsx:43-53 | the counter keeps matching the content through any edit |
| WriteReviewPage.ClickedStarsLit | client/src/pages/WriteReview.jsx:133-140 | after clicking star i exactly the first i stars are lit |
| WriteReviewPage.MinRead | client/src/pages/WriteReview.jsx:187 | the estimate is the server's ceil(pieces/200), which is 1 for empty content |
| WriteReviewPage.WriteReview.HandleChange | client/src/pages/WriteReview.jsx:43-53 | the form and counter change as ApplyEdit and CountAfter say, keeping the counter equal to the content length |
| WriteReviewPage.WriteReview.ClickStar | client/src/pages/WriteReview.jsx:133-140 | the rating becomes the star clicked and exactly that many stars are lit |
| WriteReviewPage.WriteReview.HandleSubmit | client/src/pages/WriteReview.jsx:55-77 | content under 50 characters is refused with the message and nothing is sent; otherwise the payload is sent and only success leaves for the book page |
| WriteReviewPage.EnabledButtonPassesCheck | client/src/pages/WriteReview.jsx:212 | an enabled button (not loading, counter at least 50) means the submit check passes |
| ReviewEditor.InitialForm | client/src/components/review/ReviewEditor.jsx:5-10 | missing title and content become "", a missing or falsy rating becomes 5, and a missing spoiler flag false |
| ReviewEditor.InitialCount | client/src/components/review/ReviewEditor.jsx:11 | the counter starts at the initial content's length |
| ReviewEditor.EditorPayload | client/src/components/review/ReviewEditor.jsx:30-33 | the payload is the form with `book` set to the book id |
| ReviewEditor.EstimatesDifferOnlyWhenEmpty | client/src/components/review/ReviewEditor.jsx:41 | the editor's estimate agrees with the review page's except on empty text (0 against 1) |
| ReviewEditor.Editor.constructor | client/src/components/review/ReviewEditor.jsx:5-12 | the form and counter start as InitialForm and InitialCount, not submitting |
| ReviewEditor.Editor.HandleChange | client/src/components/review/ReviewEditor.jsx:14-24 | the same edit and counter rules as the review page |
| ReviewEditor.Editor.ClickStar | client/src/components/review/ReviewEditor.jsx:52-59 | the rating becomes the star clicked |
| ReviewEditor.Editor.HandleSubmit | client/src/components/review/ReviewEditor.jsx:26-39 | the payload is handed over and isSubmitting is false afterwards, so the callback returning or throwing ends the same way |
| ProfilePage.AvatarError | client/src/pages/Profile.jsx:42-49 | refused unless the type starts with "image/" (checked first), then refused when larger than 2 MiB |
| ProfilePage.AvatarSizeBoundary | client/src/pages/Profile.jsx:46-49 | exactly 2 MiB passes and one byte more does not |
| ProfilePage.TypeCheckedFirst | client/src/pages/Profile.jsx:42-45 | a non-image is refused as such whatever its size |
| ProfilePage.Merge | client/src/pages/Profile.jsx:73 | `{...user, ...formData}`: form values win and every other stored field is kept |
| ProfilePage.MergeIdempotent | client/src/pages/Profile.jsx:73 | merging the same form twice changes nothing more |
| ProfilePage.Profile.HandleChange | client/src/pages/Profile.jsx:36 | one form field takes the typed value |
| ProfilePage.Profile.HandleAvatarChange | client/src/pages/Profile.jsx:38-60 | a refused file only sets the error; a successful upload changes only the form's avatar; a failed one sets the error |
| ProfilePage.Profile.HandleSubmit | client/src/pages/Profile.jsx:64-77 | after a save the stored user is the old one merged with the form and editing ends; a failure keeps it and shows the error |
| ReaderPage.ChangePage | client/src/pages/Reader.jsx:68-78 | prev+offset raised to 1 and lowered to the page count when known |
| ReaderPage.ForwardThenBack | client/src/pages/Reader.jsx:68-78 | one step forward and one back returns to any page but the last |
| ReaderPage.ArrowsStopAtEnds | client/src/pages/Reader.jsx:68-78 | on the first and last page the outward step stays put |
| ReaderPage.TypedPage | client/src/pages/Reader.jsx:80-85 | lowered to the count then raised to 1, so at least 1 even for a count of 0, and 1 before the count is known |
| ReaderPage.ZoomIn | client/src/pages/Reader.jsx:87-89 | +0.2 capped at 3, staying within [0.5, 3] |
| ReaderPage.ZoomOut | client/src/pages/Reader.jsx:91-93 | −0.2 floored at 0.5, staying within [0.5, 3] |
| ReaderPage.ZoomInThenOut | client/src/pages/Reader.jsx:87-93 | zooming in then out restores a scale that was not capped |
| ReaderPage.AbsoluteUrl | client/src/pages/Reader.jsx:39-46 | an address starting with "http" is kept; any other gets the backend origin in front |
| ReaderPage.AbsoluteUrlIdempotent | client/src/pages/Reader.jsx:39-46 | making an address absolute twice is the same as once |
| ReaderPage.EnabledButtonsMoveOnePage | client/src/pages/Reader.jsx:174-189 | from a page within the document, an enabled Previous or Next moves exactly one page |
| ReaderPage.Reader.LoadBook | client/src/pages/Reader.jsx:34-55 | an address is made absolute and the page reset to 1; a book without one or a failed fetch sets the error and no book |
| ReaderPage.Reader.DocumentLoaded | client/src/pages/Reader.jsx:59 | the page count is recorded and nothing else changes |
| ReaderPage.Reader.Step | client/src/pages/Reader.jsx:68-78 | the page becomes ChangePage of the old one, staying at least 1 |
| ReaderPage.Reader.KeyDown | client/src/pages/Reader.jsx:105-112 | ArrowLeft steps back, ArrowRight forward, other keys do nothing |
| ReaderPage.Reader.EnterPage | client/src/pages/Reader.jsx:80-85 | the page becomes TypedPage of the value |
| ReaderPage.Reader.ItemClick | client/src/pages/Reader.jsx:61-66 | an outline link with a page number jumps to it |
| ReaderPage.Reader.ZoomInClicked | client/src/pages/Reader.jsx:87-89 | the scale becomes ZoomIn of the old one, within bounds |
| ReaderPage.Reader.ZoomOutClicked | client/src/pages/Reader.jsx:91-93 | the scale becomes ZoomOut of the old one, within bounds |
| BookReader.Smaller | client/src/components/book/BookReader.jsx:84 | max(12, fs−2) |
| BookReader.Larger | client/src/components/book/BookReader.jsx:91 | min(24, fs+2) |
| BookReader.SteppingKeepsSizeReachable | client/src/components/book/BookReader.jsx:84-91 | either button keeps an even size within 12..24 |
| BookReader.StepAllReachable | client/src/components/book/BookReader.jsx:4-91 | any series of presses from 16 keeps the size even and within 12..24 |
| BookReader.LargestAfterFourPresses | client/src/components/book/BookReader.jsx:4-91 | four presses of A+ from 16 reach 24, and the ends do not move past themselves |
| BookReader.PressesReachLargest | client/src/components/book/BookReader.jsx:4-91 | from any reachable size fs, (24 − fs)/2 presses of A+ reach 24 |
| BookReader.PressesReachSmallest | client/src/components/book/BookReader.jsx:4-91 | from any reachable size fs, (fs − 12)/2 presses of A− reach 12 |
| BookReader.ProgressPercent | client/src/components/book/BookReader.jsx:9 | on exact reals, the integer within 0.5 of currentPage/pages·100 (Percentage of them), within 0..100 for a page of the book, 100 on the last; undefined for a book of 0 pages |
| BookReader.ParseIntOfNatToString | client/src/components/book/BookReader.jsx:193 | parseInt reads back the decimal rendering of any number |
| BookReader.TypedPage | client/src/components/book/BookReader.jsx:193 | `parseInt(value) \|\| 1`: the parsed number, or 1 for NaN or 0 |
| BookReader.TypedDigitsGivePage | client/src/components/book/BookReader.jsx:193 | typing the digits of a page number asks for that page |
| BookReader.FontStack | client/src/components/book/BookReader.jsx:157-162 | serif, sans-serif and anything else map to the three fixed font stacks |
| BookReader.Reader.constructor | client/src/components/book/BookReader.jsx:4-7 | the size starts at 16, serif, light, settings closed |
| BookReader.Reader.DecreaseFont | client/src/components/book/BookReader.jsx:84 | the size becomes Smaller of the old one and stays reachable |
| BookReader.Reader.IncreaseFont | client/src/components/book/BookReader.jsx:91 | the size becomes Larger of the old one and stays reachable |
| BookReader.Reader.ChooseFamily | client/src/components/book/BookReader.jsx:104-106 | only the family changes |
| BookContext.ParamsFor | client/src/context/BookContext.jsx:33-37 | the fetch parameters are the filters, the page and limit 12 |
| BookContext.Replaced | client/src/context/BookContext.jsx:129-131 | every book with the id becomes the server's copy; length and other books unchanged |
| BookContext.DeleteUndoesCreateAndUpdate | client/src/context/BookContext.jsx:114-146 | deleting a just-created book whose id was new restores the earlier list, and deleting a just-created or just-updated book leaves what deleting it from the earlier list leaves |
| BookContext.Provider.constructor | client/src/context/BookContext.jsx:16-26 | no books, page 1 of 1, no genre, no search, newest first |
| BookContext.Provider.FetchBooks | client/src/context/BookContext.jsx:29-48 | the response's books and page numbers replace the cache; a failure only sets the error; the query is the filters plus page and limit |
| BookContext.Provider.FetchFeaturedBooks | client/src/context/BookContext.jsx:51-58 | success replaces the featured list; a failure keeps it |
| BookContext.Provider.SearchBooks | client/src/context/BookContext.jsx:61-64 | only the search filter changes and the page returns to 1 |
| BookContext.Provider.FilterByGenre | client/src/context/BookContext.jsx:67-70 | only the genre filter changes and the page returns to 1 |
| BookContext.Provider.SortBooks | client/src/context/BookContext.jsx:73-76 | only the sort changes and the page returns to 1 |
| BookContext.Provider.ClearFilters | client/src/context/BookContext.jsx:79-86 | the filters return to no genre, no search, newest first, page 1 |
| BookContext.Provider.LoadMore | client/src/context/BookContext.jsx:89-93 | page currentPage+1 is fetched iff currentPage < totalPages; its books and page numbers then replace the cached ones with the error cleared, a failed fetch keeps them and sets the error, and loading ends false; with no next page nothing changes |
| BookContext.Provider.GetBook | client/src/context/BookContext.jsx:96-107 | the cache is untouched; a failure sets the error |
| BookContext.Provider.CreateBook | client/src/context/BookContext.jsx:110-122 | success puts the new book first and keeps the rest; a failure keeps the list and sets the error |
| BookContext.Provider.UpdateBook | client/src/context/BookContext.jsx:125-139 | success replaces every book with the id, as Replaced says |
| BookContext.Provider.DeleteBook | client/src/context/BookContext.jsx:142-153 | success removes every book with the id and the others keep their order |
| UseReviews.Liked | client/src/hooks/useReviews.js:83-87 | only totalLikes of the reviews with the id changes; every other field and review is unchanged |
| UseReviews.Replaced | client/src/hooks/useReviews.js:55-57 | every review with the id becomes the server's copy |
| UseReviews.DeleteAfterLike | client/src/hooks/useReviews.js:71-87 | deleting after a like leaves what deleting straight away leaves; deleting an absent id changes nothing |
| UseReviews.LikeTwice | client/src/hooks/useReviews.js:83-87 | two likes in a row leave the second response's count |
| UseReviews.Reviews.FetchReviews | client/src/hooks/useReviews.js:9-22 | success replaces the whole list; a failure keeps it and sets the error |
| UseReviews.Reviews.GetReview | client/src/hooks/useReviews.js:24-35 | the list is untouched; a failure sets the error |
| UseReviews.Reviews.CreateReview | client/src/hooks/useReviews.js:37-49 | success puts the new review first |
| UseReviews.Reviews.UpdateReview | client/src/hooks/useReviews.js:51-65 | success replaces the reviews with the id |
| UseReviews.Reviews.DeleteReview | client/src/hooks/useReviews.js:67-78 | success removes the reviews with the id, the others keeping their order |
| UseReviews.Reviews.LikeReview | client/src/hooks/useReviews.js:80-92 | success changes only like counts as Liked says; a failure changes nothing, not even the error |
| DiscoverPage.SearchAction | client/src/pages/Discover.jsx:13-21 | a search iff the query is longer than 2, a clear iff it is empty, nothing for 1 or 2 characters |
| DiscoverPage.GenreAction | client/src/pages/Discover.jsx:23-30 | a genre filter iff the genre is non-empty, otherwise a clear |
| DiscoverPage.Discover.HandleSearch | client/src/pages/Discover.jsx:13-21 | the box shows the query; a long query sets the search filter, an empty one clears the filters, a short one leaves them |
| DiscoverPage.Discover.HandleGenreFilter | client/src/pages/Discover.jsx:23-30 | the genre is always shown; a genre sets the genre filter, the empty choice clears the filters |

## Left out

- Persistence, `populate`, HTTP routing, authentication and the client's request services are not modelled. The store is an in-memory class, and a request's outcome is a parameter of the handler that awaits it.
- Concurrency is not modelled: the unique indexes on (book, user) and (user, book) are invariants of a single-threaded store.
- The clock (`Date.now()`), `Math.random()` and the current year are parameters.
- Time-outs that clear messages or navigate later, `window.scrollTo`, focus and scrolling are not modelled.
- pdf.js parsing and rendering, canvases, `drawImage`, the JPEG encoding and the gradient and font styling of the cover are not modelled. The extracted document is a parameter, the cover image a string, and text measurement an abstract width function.
- `extractPDFMetadataLowQuality` is not modelled: it refers to names it never defines, so it always ends in its catch block.
- The year of a PDF's CreationDate is handed over already parsed. pdf.js gives that date as a PDF date string ("D:20200101…"), which `new Date(...)` most likely does not parse, so in the browser `getFullYear()` would give NaN (client/src/utils/pdfMetadataExtractor.js:73, 93); the model does not capture that NaN.
- `formatFullDate`, `formatNumber`, `formatRating`, `formatFileSize` and `getRandomColor` are not modelled: they are locale, floating-point or random formatting.
- Text.ToLower: case mapping covers ASCII letters only.
- Text.ToUpper: case mapping covers ASCII letters only. JavaScript's `toUpperCase` also maps letters such as 'é' to 'É' and 'ß' to "SS", so `GetInitials` and the cover initial differ from the browser for such names.
- String lengths count characters. JavaScript's `.length` counts UTF-16 code units, so a character outside the Basic Multilingual Plane counts twice there. This affects the 3 and 6 character limits of the sign-up form, the 50 and 200 character review checks, the review editor's character count and the search box's `> 2` test.
- ReviewModel: `rating` is an integer. The schema's Number type would also accept a fractional rating such as 4.5 between the bounds.
- BookReader.ParseInt: reads decimal digits only. `parseInt` without a radix reads a `0x` prefix as hexadecimal, which the page box never relies on.
- ReviewController.UpdateReview: the duplicate-key message is abbreviated to the index name; MongoDB's full message also quotes the duplicated key values.
- BookController.ListBooks: the search is a literal, case-insensitive substring match, not a regular expression.
- BookController.ListBooks: only the default `-createdAt` sort is modelled. A caller-chosen sort key is not.
- ReviewController.ListReviews: only the default `-createdAt` sort is modelled. A caller-chosen sort key is not.
- UserController.UserLibrary: sorts by the fixed `-lastReadAt` key only.
- BookModel.BookErrors: when several paths fail, only the first (title, author, description, genres) is reported; Mongoose lists every failing path, joined by ", ". An empty genre entry is reported on the path `genres`, while Mongoose most likely names the element (`genres.0`, "Path `genres.0` is required.").
- BookModel.FieldErrors: when several supplied paths fail, only the first is reported; Mongoose lists every failing path.
- ReviewController.PatchErrors: when several supplied paths fail, only the first is reported; Mongoose lists every failing path.
- ReviewModel.CheckFields: gives the failing path's message, not Mongoose's full error text.
- BookController.CreateBook: a body-supplied `_id` or timestamps are not modelled, and neither is Mongoose's casting of body values to the schema types. Every other path of the body reaches the document, including `averageRating` and `totalReviews`.
- ReviewController.UpdateReview: a body-supplied `_id`, `createdAt` or `updatedAt` is not modelled, and neither is Mongoose's casting of body values. Every other schema path of the body reaches the stored review.
- BookController.UpdateBook: a body-supplied `_id`, `createdAt` or `updatedAt` is not modelled, and neither is Mongoose's casting of body values. Every other schema path of the body reaches the stored book.
- Zoom scales are exact reals, so floating-point drift after repeated 0.2 steps is not modelled.
- Formatters.Percentage: computes `Math.round((value / total) * 100)` on exact reals, not on JavaScript doubles. Where the double product falls just below an exact half the browser rounds down: 23 of 40 is 57.5 exactly, but 0.575 × 100 is 57.49999999999999 as a double, so the browser gives 57 where the model gives 58 (29 of 200 and 57 of 200 behave the same way).
- Formatters.FormatPercentage: inherits Percentage's exact-real rounding, so 23 of 40 is "58%" in the model and "57%" in the browser.
- BookReader.ProgressPercent: inherits Percentage's exact-real rounding, so page 23 of 40 gives a bar of 58 in the model and 57 in the browser.
- ProfilePage.Profile.HandleSubmit: after a save the page calls `loadProfile()` (client/src/pages/Profile.jsx:72), which later replaces the form with the server's copy (line 30); that reload is a separate asynchronous call and is not part of this method, whose form is the one before the reload.
- ReaderPage.Reader.EnterPage takes the box's value as an integer. `Number()` producing NaN for non-numeric text is not modelled.
- The reader's fullscreen toggle and themes are presentational and are not modelled.
- BookContext.Provider: the effect `useEffect(() => fetchBooks(currentPage), [filters])` (client/src/context/BookContext.jsx:156-158), which refetches the current page whenever the filters change, is not modelled; the model's filter setters change the filters only, and a fetch is a separate call.
- Browser storage is not modelled as such. The profile page keeps the stored user as a field, and its values are strings.
- Authentication redirects and the login page are not modelled.
- Presentational components are not modelled.
