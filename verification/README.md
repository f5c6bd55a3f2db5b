# Clothes store: storefront and admin rules

A Dafny model of the rules inside an Angular clothes storefront and its admin
panel. The shop's data lives in a hosted database, and every call to it is an
input to the model: the reply it settled with, or the error it threw. The
modelled parts are:

- **Category editor.** Categories and subcategories are added and deleted
  optimistically, with a temporary id. Each add or delete is committed or
  rolled back when the server replies. Subcategories are attached to their
  categories after loading.
- **Home page.** Products are bucketed by subcategory name, up to the first
  product whose name is inherited from `Object.prototype`, where the loop throws.
- **Summer and winter pages.** A season's category is found by keyword, and
  the products are filtered by category and by subcategory.
- **Admin products page.** This covers:
  - the subcategory picker, which uses loose `==`;
  - parsing and formatting of the comma-separated sizes field;
  - the image picker's checks;
  - create and edit validation;
  - stripping the update payload.
- **Testimonial carousel.** Index arithmetic for next, previous and go-to.
- **Product details page.**
  - The route-id guard.
  - The WhatsApp order message and link.
- **About-us and payment-policy editors.** These are one module, because the
  two components are the same code. It covers the `<strong>` button with its
  caret re-selection, field routing, and the add, edit and toggle guards.
- **Testimonials admin page.** Form validation, the error text shown on
  failure, and the two image pickers with their limits.
- **Testimonials service.** Signing of stored image paths per row, naming of
  upload paths, and the choice between public and signed links.
- **Admin session.** Restoring from storage, login outcomes and logout.
- **Application shell.** Which navigation bar is shown.

JavaScript semantics that the rules depend on are modelled explicitly in the
`Js` and `Text` modules:

- truthiness and `typeof … === 'object'`;
- `String(v)`, `Number(s)` and `parseInt(s)` on integer text;
- loose `==`, including number/text coercion;
- the `trim` white-space set;
- `split` on one character, `join`, `includes`, `startsWith`;
- `splice` and `findIndex`.

Ids are `Server(n)` for numeric server ids and `Temp(stamp)` for the
client's `temp-<stamp>` ids.

Three places where the code does something other than one might expect, all
modelled as the code does it:

- A season page with no matching category shows all products
  (`Seasonal.Load`).
- Keyword matching is a substring test, and the first match wins.
- Home-page products with a falsy `subcategory_id` are in no bucket. They do
  not land in an "Other" bucket. "Other" is only the bucket for an id that no
  subcategory has.

## Model

| member | source | states |
|---|---|---|
| CategoryEditor.AddCategoryApply | src/app/components/categories/categories.component.ts:86-93 | A blank name changes nothing. Otherwise the temporary category with the trimmed name is at index 0, every old entry moves up by exactly one, and `newName` is cleared. |
| CategoryEditor.AddCategoryCommit | src/app/components/categories/categories.component.ts:95-97 | The first entry carrying the temporary id is replaced in place by the created row with empty subcategories. All other positions are unchanged. With no such entry the list is unchanged. |
| CategoryEditor.AddCategoryRollback | src/app/components/categories/categories.component.ts:99-100 | No entry with the temporary id remains. What remains is an order-preserving subsequence, and every other category keeps its multiplicity. |
| CategoryEditor.AddCategory | src/app/components/categories/categories.component.ts:86-103 | End to end: a blank name is a no-op. A success leaves the created category in front of the original list. A failure removes every row carrying the temporary id, and when that id was fresh it gives back the original list. |
| CategoryEditor.CommitAfterApply | src/app/components/categories/categories.component.ts:91-97 | Committing right after the optimistic prepend gives the created row followed by the original list. |
| CategoryEditor.RollbackDropsTemp | src/app/components/categories/categories.component.ts:92-100 | Rolling back after the prepend equals rolling back the old list, so an older row sharing the temporary id is dropped too. |
| CategoryEditor.RollbackAfterApply | src/app/components/categories/categories.component.ts:92-100 | When no category already carries the temporary id, rolling back right after the optimistic prepend restores the original list exactly. |
| CategoryEditor.DeleteCategoryApply | src/app/components/categories/categories.component.ts:109-112 | An absent id removes nothing. Otherwise the element at the first index with the id is spliced out, and the index and element are reported. |
| CategoryEditor.DeleteCategory | src/app/components/categories/categories.component.ts:105-121 | An absent id changes nothing. A success removes exactly the first match. A failure splices it back at its index, which gives back the original list. |
| CategoryEditor.AddSubApply | src/app/components/categories/categories.component.ts:22-32 | A blank name or an unknown category changes nothing. Otherwise the temporary subcategory is put in front of the first category whose id `===` the given id, and every other category is unchanged. |
| CategoryEditor.ReplaceSub | src/app/components/categories/categories.component.ts:36-38 | The first subcategory with the temporary id is replaced in place. If there is none, nothing changes. |
| CategoryEditor.DropSub | src/app/components/categories/categories.component.ts:43 | Exactly the subcategories with the temporary id are filtered out. The others keep their order and multiplicity. |
| CategoryEditor.AddSubCommit | src/app/components/categories/categories.component.ts:34-39 | The success phase touches only the target category, replacing its temporary row in place. |
| CategoryEditor.AddSubRollback | src/app/components/categories/categories.component.ts:41-43 | The failure phase touches only the target category, dropping its temporary rows. |
| CategoryEditor.AddSubcategory | src/app/components/categories/categories.component.ts:22-46 | End to end: a success leaves the created subcategory in front of the target's list. A failure gives back the original categories. |
| CategoryEditor.ApplyKeepsTarget | src/app/components/categories/categories.component.ts:26-31 | The optimistic phase leaves the target category first among those with its id. |
| CategoryEditor.SubCommitAfterApply | src/app/components/categories/categories.component.ts:31-38 | Commit after apply equals prepending the created row to the target's subcategories. |
| CategoryEditor.SubRollbackAfterApply | src/app/components/categories/categories.component.ts:31-43 | Rollback after apply restores the original categories. |
| CategoryEditor.DropSubAfterPrepend | src/app/components/categories/categories.component.ts:31-43 | Filtering out a row prepended with a fresh id undoes the prepend. |
| CategoryEditor.RemoveSubOptimistic | src/app/components/categories/categories.component.ts:124-135 | Reports nothing exactly when no category holds the id. Otherwise it picks the first such category in list order and splices out its first matching row. The category index, row index and row are reported, and nothing else changes. |
| CategoryEditor.RestoreSub | src/app/components/categories/categories.component.ts:58-60 | The row is spliced back into its own category at its old index. Every other category is unchanged. |
| CategoryEditor.DeleteSubcategory | src/app/components/categories/categories.component.ts:48-63 | A failure gives back the original list. An id held by no category changes nothing. A success is the optimistic removal. |
| CategoryEditor.ChildrenOf | src/app/components/categories/categories.component.ts:70 | Returns exactly the fetched subcategories with `category_id === id`, in fetched order and with their multiplicities. |
| CategoryEditor.AttachSubs | src/app/components/categories/categories.component.ts:70 | Categories keep their order, ids and names. Each category's subcategories are exactly the fetched ones pointing at it, in fetched order and with their multiplicities. |
| CategoryEditor.LoadAll | src/app/components/categories/categories.component.ts:66-71 | A failed category fetch changes nothing. A failed subcategory fetch leaves the fetched categories assigned without their children. With both fetches, each category gets exactly its own subcategories, in fetched order and with their multiplicities. |
| CategoryEditor.ToggleExpand | src/app/components/categories/categories.component.ts:74-84 | Flips the expanded state of one row and no other. |
| CategoryEditor.ToggleTwiceRestores | src/app/components/categories/categories.component.ts:78-84 | Toggling twice restores the expanded set. |
| Home.GetSubcategoryName | src/app/components/home/home.component.ts:66-70 | A falsy id gives 'Other'. Otherwise the name is that of the first subcategory whose id `===` the id, or 'Other'. |
| Home.Place | src/app/components/home/home.component.ts:51-54 | Throws exactly when the key is a name inherited from `Object.prototype`. Otherwise it appends the product to the bucket with its key, or opens a new bucket at the end, and other buckets and all keys are unchanged. |
| Home.Step | src/app/components/home/home.component.ts:48-55 | After a throw nothing more happens. Otherwise a step throws exactly when the product is grouped and its name is inherited. |
| Home.Group | src/app/components/home/home.component.ts:47-56 | The loop throws exactly when some grouped product has an inherited name, and stops at the first. The buckets group exactly the products before it: keys are distinct, buckets are non-empty, each holds exactly the products with its key in product order, and each grouped product there has a bucket. |
| Home.GroupsAllWithoutInherited | src/app/components/home/home.component.ts:47-56 | When no grouped product has an inherited name, the loop does not throw and groups every product. |
| Home.InheritedNameStopsGrouping | src/app/components/home/home.component.ts:48-56 | A first product in a subcategory named "constructor" makes the loop throw with no bucket at all, so the product after it is never placed. |
| Home.NoInheritedKey | src/app/components/home/home.component.ts:47-56 | No bucket is keyed by an inherited name. |
| Home.GroupSizes | src/app/components/home/home.component.ts:47-56 | The bucket sizes sum to the number of products with a truthy `subcategory_id` before the loop stopped. |
| Home.UnbucketedNowhere | src/app/components/home/home.component.ts:48-49 | A product with a falsy `subcategory_id` is in no bucket. |
| Home.BucketOfProduct | src/app/components/home/home.component.ts:49-54 | A grouped product placed before the loop stopped lies in the bucket keyed by its subcategory name and in no other. |
| Home.GetSubcategoryKeys | src/app/components/home/home.component.ts:98-100 | Returns the bucket keys, one per bucket, in bucket order. |
| Home.KeysAreNamesOfGrouped | src/app/components/home/home.component.ts:47-56 | A name is a key exactly when some grouped product placed before the loop stopped has that subcategory name. |
| Home.LoadData | src/app/components/home/home.component.ts:32-64 | When both fetches succeed, the subcategories are the fetched ones and the buckets group the products before the first inherited name. A failed fetch leaves both lists. Loading always ends. |
| Seasonal.FindSeasonCategory | src/app/components/summer-clothes/summer-clothes.component.ts:56-59 | Returns the first category whose lower-cased name contains the English or Arabic keyword. It returns none exactly when no category does. |
| Seasonal.Load | src/app/components/summer-clothes/summer-clothes.component.ts:43-83 | With a match, the rest is `LoadSeason` for that category. With no match, all products are shown and there are no subcategories. A failed fetch keeps what was already assigned. Loading always ends. |
| Seasonal.LoadSeason | src/app/components/summer-clothes/summer-clothes.component.ts:61-78 | The products are exactly those whose `category_id ===` the category's id, in order and with their multiplicities. After the subcategory fetch the filtered list equals them; a failed fetch keeps the old subcategories and filtered list. |
| Seasonal.OnSubcategoryChange | src/app/components/summer-clothes/summer-clothes.component.ts:85-92 | 'all' gives every product. Otherwise it gives exactly those with `subcategory_id === parseInt(selected)`, with their multiplicities. The result is always an order-preserving subsequence. Products, subcategories, the selection and the loading flag are unchanged. |
| Seasonal.SelectingSubcategoryId | src/app/components/winter-clothes/winter-clothes.component.ts:85-92 | Choosing the option `String(id)` keeps exactly the products with that numeric subcategory id. |
| Seasonal.GetSubcategoryName | src/app/components/winter-clothes/winter-clothes.component.ts:105-109 | A falsy id gives 'Category'. Otherwise the name is that of the first `===` match, or 'Category'. |
| ProductsAdmin.SubsForCategory | src/app/components/products/products.component.ts:121-126 | A falsy id gives nothing. Otherwise it gives exactly the subcategories whose `category_id == catId` (loose equality), in order and with their multiplicities. |
| ProductsAdmin.SubsForCategoryIdText | src/app/components/products/products.component.ts:121-126 | For any non-zero id, passing it as decimal text selects the same subcategories as the number. |
| ProductsAdmin.FirstSubId | src/app/components/products/products.component.ts:51 | Returns the first candidate's id, or `null` exactly when there are no candidates. |
| ProductsAdmin.OnCategoryChangeForNew | src/app/components/products/products.component.ts:47-52 | Sets only the add form's `subcategory_id`, to the first matching id or `null`. The key is added if missing. The edit row, `editId` and the in-flight markers are unchanged. |
| ProductsAdmin.OnCategoryChangeForEdit | src/app/components/products/products.component.ts:55-59 | Does nothing without an edit row. Otherwise it sets only the edit row's `subcategory_id`. The add form, `editId` and the in-flight markers are unchanged. |
| ProductsAdmin.ParseSizesText | src/app/components/products/products.component.ts:110 | Keeps exactly the non-empty trimmed comma-separated pieces, in order. Each kept piece is trimmed and comma-free. |
| ProductsAdmin.ParseSizes | src/app/components/products/products.component.ts:245 | A falsy value gives no sizes. A truthy value is turned to text as `String(...)` does, and that text is split at commas, trimmed and cleared of empty entries. Every size is non-empty, trimmed and holds no comma. |
| ProductsAdmin.FormatSizes | src/app/components/products/products.component.ts:170 | Falsy sizes give ''. An array is joined. Truthy sizes that are not an array make `join` throw. |
| ProductsAdmin.SizesRoundTrip | src/app/components/products/products.component.ts:110 | Parsing `sizes.join(', ')` returns the list when each size is non-empty, trimmed and comma-free. |
| ProductsAdmin.EditSaveSizes | src/app/components/products/products.component.ts:245 | Opening a row for edit and saving it gives back the same sizes. |
| ProductsAdmin.EditProduct | src/app/components/products/products.component.ts:168-172 | `editId` is always the product's id. The copy is made exactly when the sizes can be joined: the edit row is then the product with only `sizes` replaced by the joined text. Otherwise `join` throws and nothing else changes. |
| ProductsAdmin.CancelEdit | src/app/components/products/products.component.ts:174-178 | Clears the edit row and id, and leaves the form and the busy markers alone. |
| ProductsAdmin.OnImageSelected | src/app/components/products/products.component.ts:63-92 | Checks the image with the 5 MiB limit. Only an accepted file changes the form, and then only `image_url`. |
| ProductsAdmin.RemoveImage | src/app/components/products/products.component.ts:95-101 | Clears `image_url` and nothing else. The form keeps its other keys, and the edit row, `editId` and the in-flight markers are unchanged. |
| ProductsAdmin.ProductImageBoundary | src/app/components/products/products.component.ts:68-78 | Exactly 5·1024·1024 bytes passes and one byte more does not. A non-image is refused at any size. |
| ProductsAdmin.AddProduct | src/app/components/products/products.component.ts:103-118 | Without a category nothing is created and nothing changes. With one, truthy sizes that are not text make `split` throw, and otherwise the product is created. The payload is the form with `sizes` parsed. Only a success clears the form. |
| ProductsAdmin.AddClearsForm | src/app/components/products/products.component.ts:113-115 | After a successful add, adding again is refused for want of a category. |
| ProductsAdmin.StripPayload | src/app/components/products/products.component.ts:248-252 | Drops `id`, `categories` and `categories_id`, and every value that `typeof` calls an object and is not an array, which includes `null`. It keeps everything else unchanged. |
| ProductsAdmin.StripIdempotent | src/app/components/products/products.component.ts:248-252 | Stripping twice is stripping once. |
| ProductsAdmin.Validate | src/app/components/products/products.component.ts:228-239 | Checks in order: name, then price, then category. A missing or blank name is rejected and a name that is not text throws. A bad price is rejected exactly when the name is good, and a missing category exactly when name and price are good. It passes exactly when all three hold. |
| ProductsAdmin.SaveStart | src/app/components/products/products.component.ts:224-245 | Without an edit row it does nothing. The update goes out exactly when validation passes; a refusal is the validation's verdict and changes nothing. An update sets the saving marker to the id and carries the stripped row with parsed sizes. |
| ProductsAdmin.SaveSettle | src/app/components/products/products.component.ts:254-270 | Clears the saving marker. Only a success closes the edit row. |
| ProductsAdmin.SaveEdit | src/app/components/products/products.component.ts:224-271 | Without an edit row it does nothing. The update goes out exactly when validation passes; a refusal changes nothing. An update sends the stripped row with parsed sizes, closes the edit only on success, and clears the saving marker. |
| ProductsAdmin.SaveClosesEdit | src/app/components/products/products.component.ts:256-257 | After a successful save, saving again does nothing. |
| ProductsAdmin.DeleteStart | src/app/components/products/products.component.ts:147-149 | Only a confirmed delete goes out, and it sets the deleting marker to the id. |
| ProductsAdmin.DeleteSettle | src/app/components/products/products.component.ts:162-164 | Clears the deleting marker and nothing else. |
| ProductsAdmin.DeleteProduct | src/app/components/products/products.component.ts:135-165 | Only a confirmed delete is sent, and the deleting marker is cleared afterwards. |
| ProductsAdmin.BusyWhileInFlight | src/app/components/products/products.component.ts:181-183 | A row is busy from the start of its save or delete until that call settles. With a save and a delete of the same row overlapping, it stays busy until both have settled, in either order. |
| Carousel.Next | src/app/components/testimonials-display/testimonials-display.component.ts:476-480 | Does nothing for length ≤ 1. Otherwise it steps forward, wrapping from the last index to 0, and keeps the index in range. |
| Carousel.Prev | src/app/components/testimonials-display/testimonials-display.component.ts:482-486 | Does nothing for length ≤ 1. Otherwise 0 goes to length−1 and any other index is decremented, keeping the index in range. |
| Carousel.GoTo | src/app/components/testimonials-display/testimonials-display.component.ts:488-489 | Sets the index to the argument with no bounds check. |
| Carousel.PrevNext | src/app/components/testimonials-display/testimonials-display.component.ts:476-486 | Previous after next, and next after previous, give back the index. |
| Carousel.NextTimesIndex | src/app/components/testimonials-display/testimonials-display.component.ts:476-480 | k ≤ length steps forward from an in-range index land at index+k, minus length once it wraps. |
| Carousel.FullRound | src/app/components/testimonials-display/testimonials-display.component.ts:476-480 | `length` consecutive nexts return to the start. |
| Carousel.NegativeIndexStaysNegative | src/app/components/testimonials-display/testimonials-display.component.ts:476-495 | After an out-of-range `goTo(-5)` with 3 items, next yields −1, because `%` keeps the dividend's sign. |
| ProductDetails.Lines | src/app/components/product-details/product-details.component.ts:36-42 | Lines are the heading, then the name, then the price ending in ' EGP'. A color line follows when the color is truthy, and a sizes line joined by ', ' when there are sizes. The image line, when present, is last. |
| ProductDetails.WhatsAppUrl | src/app/components/product-details/product-details.component.ts:32-45 | Without a product there is no link. Otherwise the link is the wa.me prefix followed by the encoded message. |
| ProductDetails.MessageSplitsIntoLines | src/app/components/product-details/product-details.component.ts:43 | Splitting the message at newlines gives back the lines, when the product's text holds no newline. |
| ProductDetails.LinkCarriesLines | src/app/components/product-details/product-details.component.ts:43-44 | Whatever decoding inverts the encoding, the message and its lines can be recovered from the link. |
| ProductDetails.RouteId | src/app/components/product-details/product-details.component.ts:22-23 | A missing parameter, or one that converts to 0 or NaN, gives no id. Any other parameter gives its `Number` value. |
| ProductDetails.RouteIdOfNumber | src/app/components/product-details/product-details.component.ts:22-24 | A non-zero numeric route segment is fetched under its own number. |
| ProductDetails.Init | src/app/components/product-details/product-details.component.ts:19-30 | With no id, or when the fetch fails, there is no product. Otherwise the product is the one fetched. Loading always ends. |
| Upload.CheckImage | src/app/components/testimonials/testimonials.component.ts:136-148 | Accepts exactly a chosen file whose type starts with 'image/' and whose size is ≤ the limit. The type is checked before the size. |
| Upload.LimitIsInclusive | src/app/components/testimonials/testimonials.component.ts:145 | A file of exactly the limit passes, and one byte more does not. |
| Upload.AcceptanceGrowsWithLimit | src/app/components/testimonials/testimonials.component.ts:140-148 | A file accepted under a smaller limit is accepted under a larger one. |
| Upload.TypeCheckedFirst | src/app/components/testimonials/testimonials.component.ts:140-143 | A non-image is reported as such at any size. |
| Testimonials.EmptyForm | src/app/components/testimonials/testimonials.component.ts:119-127 | The reset form has every text empty and `is_active` true. |
| Testimonials.ErrorText | src/app/components/testimonials/testimonials.component.ts:69-75 | The shown text prefers, in order: `error.message`, then `error.error.message`, then the error itself if it is text, then its JSON. The default text is used when JSON conversion throws. |
| Testimonials.ErrorObjectShowsMessage | src/app/components/testimonials/testimonials.component.ts:71 | A thrown `Error` shows its message. |
| Testimonials.ThrownTextShownAsIs | src/app/components/testimonials/testimonials.component.ts:73 | A thrown text is shown as it is. |
| Testimonials.WrappedErrorShowsInner | src/app/components/testimonials/testimonials.component.ts:72 | An error wrapped as `{error: {message}}` shows the inner message. |
| Testimonials.StringifyIsLastResort | src/app/components/testimonials/testimonials.component.ts:69-75 | The shown text depends on the JSON conversion only when the error has no own or nested message and is not text. Two conversions that agree on the error give the same text. |
| Testimonials.AddTestimonial | src/app/components/testimonials/testimonials.component.ts:54-82 | Nothing is sent exactly when the name or message is blank after trim. A success clears the form. A failure keeps the form and shows `ErrorText`. |
| Testimonials.NoDoubleSubmit | src/app/components/testimonials/testimonials.component.ts:54-82 | After a successful create the form cannot be sent again. |
| Testimonials.WithImage | src/app/components/testimonials/testimonials.component.ts:154 | Sets only the picker's own field. |
| Testimonials.PickImage | src/app/components/testimonials/testimonials.component.ts:136-193 | Profile pictures are checked against 2 MiB and icons against 1 MiB. A refused file changes nothing. An uploaded link goes into the picker's own field. An accepted file whose upload fails leaves the form unchanged and shows the error's message, or the picker's default text when there is none. |
| Testimonials.RemoveImage | src/app/components/testimonials/testimonials.component.ts:195-207 | Clears only the picker's own field. |
| Testimonials.RemoveUndoesPick | src/app/components/testimonials/testimonials.component.ts:195-200 | Removing right after a pick gives the same form as removing without the pick. |
| Testimonials.PickerLimits | src/app/components/testimonials/testimonials.component.ts:136-193 | A 1 MiB icon passes and a byte more is refused. A 2 MiB profile picture passes and a byte more is refused. |
| Testimonials.EditTestimonial | src/app/components/testimonials/testimonials.component.ts:112-116 | Leaves the form untouched. |
| TestimonialsService.SignedField | src/app/services/testimonials.service.ts:47-52 | The field is replaced only when signing settled with no error and a signed link. Otherwise it keeps its value. |
| TestimonialsService.WithSocialIcon | src/app/services/testimonials.service.ts:55-62 | Only `social_icon` can change, and only when it needs signing. |
| TestimonialsService.ResolveRow | src/app/services/testimonials.service.ts:43-67 | Only the two image fields can change, and an absolute or empty field never does. A throw while signing the profile image leaves the whole row as fetched. |
| TestimonialsService.ResolveRows | src/app/services/testimonials.service.ts:31-70 | A query error is rethrown, and `null` data gives []. Otherwise there is one resolved row per fetched row, in order. |
| TestimonialsService.ResolveRowIdempotent | src/app/services/testimonials.service.ts:42-62 | With a signer that returns web addresses, resolving twice is resolving once. |
| TestimonialsService.Extension | src/app/services/testimonials.service.ts:192 | The extension has no dot. A name without a dot is its own extension. |
| TestimonialsService.ExtensionAfterLastDot | src/app/services/testimonials.service.ts:192 | The extension is the text after the last dot. |
| TestimonialsService.UploadPath | src/app/services/testimonials.service.ts:191-193 | The path starts with 'profiles/profile-' or 'social/social-'. After that come the upload time's decimal digits, '-', the random text and '.'. |
| TestimonialsService.DistinctStampsDistinctPaths | src/app/services/testimonials.service.ts:192-200 | Uploads at different times get different paths, whatever their random text and file names, so the `upsert: false` upload never meets an existing path it made. |
| TestimonialsService.UploadPathKeepsExtension | src/app/services/testimonials.service.ts:192-194 | The stored path's extension is the picked file's extension. |
| TestimonialsService.UploadLink | src/app/services/testimonials.service.ts:198-230 | An upload error is thrown. Otherwise a public link wins. Failing that, the signing error itself is thrown, then a signed link is returned, and with neither the upload fails with its own error. |
| TestimonialsService.LinkExactlyWhenUsable | src/app/services/testimonials.service.ts:198-230 | An upload gives a link exactly when no upload error is reported and either a public link exists or, with no signing error, a signed link exists. The picker kind only changes the error for a missing link. |
| Auth.CurrentAdmin | src/app/services/auth.service.ts:93-100 | The current admin is `null` exactly when nobody is signed in. |
| Auth.CheckStoredAuth | src/app/services/auth.service.ts:24-34 | Stored text that parses is published. Unparsable text is removed and nobody is published. Afterwards the slot is empty or parses. |
| Auth.AdminUserOf | src/app/services/auth.service.ts:56-60 | The published admin has the row's id, and the row's name as both username and name. |
| Auth.Login | src/app/services/auth.service.ts:37-84 | A failed probe answers 'Cannot access admins table: …' and changes nothing. No match answers 'Invalid username or password'. A match is stored and published with 'Login successful'. A throw answers with its message or 'Login failed'. Only a success changes the session. |
| Auth.Logout | src/app/services/auth.service.ts:87-90 | Empties the slot, and nobody is signed in. |
| Auth.LoginSurvivesReload | src/app/services/auth.service.ts:24-34 | When the stored text parses back to the published user, a reload after login restores the same session. |
| Auth.LogoutSurvivesReload | src/app/services/auth.service.ts:87-90 | A reload after logout finds nobody signed in. |
| AppShell.OnNavigationEnd | src/app/app.component.ts:24-27 | An admin route is exactly a URL starting with '/admin'. |
| AppShell.OnAdminChanged | src/app/app.component.ts:30-32 | The logged-in flag is set exactly when the published admin is not `null`. |
| AppShell.ExactlyOneNavbar | src/app/app.component.ts:35-41 | In every state exactly one of the two navigation bars is shown. |
| AppShell.ShellFollowsSession | src/app/app.component.ts:26-37 | The shell's flag agrees with `isLoggedIn`. The admin bar shows exactly on admin routes of a signed-in session. |
| AppShell.AdminPrefixIsTextual | src/app/app.component.ts:26 | '/administrator' is an admin route. '/Admin' and '/shop/admin' are not. |
| AppShell.LogoutShowsUserNavbar | src/app/app.component.ts:35-41 | After logout the user bar is shown. |
| AdminContent.StartEdit | src/app/components/admin-about-us/admin-about-us.component.ts:51-54 | Puts the item under edit and hides the add form. |
| AdminContent.CancelEdit | src/app/components/admin-payment-policy/admin-payment-policy.component.ts:56-58 | Ends the edit and keeps the rest. |
| AdminContent.ShowAddFormToggle | src/app/components/admin-about-us/admin-about-us.component.ts:119-127 | Flips the add form, clears the edit, and empties the new item. |
| AdminContent.ToggleTwice | src/app/components/admin-payment-policy/admin-payment-policy.component.ts:119-127 | Toggling twice restores the flag, with the edit cleared and the form empty. |
| AdminContent.AddNewItem | src/app/components/admin-about-us/admin-about-us.component.ts:129-157 | Refused exactly when a paragraph is blank after trim. Otherwise the form is sent, and only a success closes and empties it. |
| AdminContent.FreshFormIsIncomplete | src/app/components/admin-payment-policy/admin-payment-policy.component.ts:122-133 | A freshly toggled form cannot be sent. |
| AdminContent.SaveEdit | src/app/components/admin-about-us/admin-about-us.component.ts:60-85 | Nothing happens exactly when no item is under edit or its id is falsy. Otherwise the paragraphs are sent under the id, and only a success ends the edit. |
| AdminContent.SaveEndsEdit | src/app/components/admin-about-us/admin-about-us.component.ts:60-85 | After a successful save, saving again sends nothing. |
| AdminContent.DeleteItem | src/app/components/admin-payment-policy/admin-payment-policy.component.ts:87-117 | Only a confirmed delete is sent. |
| AdminContent.Bold | src/app/components/admin-about-us/admin-about-us.component.ts:162-194 | A selection becomes prefix + '<strong>' + selection + '</strong>' + suffix, and the length grows by 17. An empty selection inserts the tagged placeholder, and the length grows by 26. |
| AdminContent.BoldIsUndoable | src/app/components/admin-payment-policy/admin-payment-policy.component.ts:166-189 | Removing the tags gives back the original text, and the new selection (start+8, end+8) covers the original selection. |
| AdminContent.Route | src/app/components/admin-about-us/admin-about-us.component.ts:173-185 | The field is the first id name the text box id contains, in the order newParagraph1..3 then editParagraph1..3. |
| AdminContent.WithParagraph | src/app/components/admin-payment-policy/admin-payment-policy.component.ts:197-209 | Sets exactly one paragraph. |
| AdminContent.InsertBold | src/app/components/admin-about-us/admin-about-us.component.ts:159-216 | A missing text box changes nothing. The routed field gets the bold text, and every other field is unchanged. No route changes no field. The add-form item keeps its id, and the item under edit stays under edit with its id. An edit field with nothing under edit throws and leaves the model alone. |
| AdminContent.AddFormIdsWin | src/app/components/admin-payment-policy/admin-payment-policy.component.ts:173-185 | An id naming an add-form paragraph never feeds the edited item. |
| AdminContent.BoldFieldIsUndoable | src/app/components/admin-payment-policy/admin-payment-policy.component.ts:162-189 | When the box shows its field, removing the tags from the updated field restores it. |

## Left out

- Storage calls are inputs: gateway calls, `localStorage`, and the storage bucket's upload, public-link and signing calls. Each is modelled by the reply it settled with. Server-side ordering and filtering (`is_active`, `created_at`, per-category queries) are assumed.
- List reloads after a save, add or delete are left out. They are a fresh fetch, modelled as an input wherever a page loads.
- Timers are left out: auto-slide and the scroll-button refresh.
- DOM and UI side effects are left out: scrolling, file-input resetting, focus, SweetAlert dialogs, `alert`, console output and `window.open`.
- `FileReader` is left out. An accepted product image's data URL is a parameter.
- `Date.now()`, `Math.random()`, `encodeURIComponent` and `JSON.stringify`/`JSON.parse` are parameters.
- Numbers are integers. Prices are never computed with, and `Number()`/`parseInt` are modelled on integer text only: no fractions, exponents, hex or Infinity.
- `toLowerCase` is modelled on ASCII letters only. The Arabic keywords have no case.
- Home.GetSubcategoryKeys: buckets are kept in insertion order. `Object.keys` would list integer-like names (such as a subcategory named "2024") first, in ascending order.
- ProductDetails.Lines: the product's `sizes` is a list of texts, so a `null` list is the same as an empty one. Its name is text, so `null` names printing as "null" are not modelled.
- ProductsAdmin.DeleteProduct: the reload after a successful delete is a fresh fetch and is left out.
- CategoryEditor.RestoreSub: it finds the category again by position, and the commit and rollback phases of the adds find it by id. The component keeps an object reference across the await. The two agree only when nothing else changes the list in between, so overlapping mutations and a reload during a call are not modelled.
- The products page's `resetForm`, `loadProducts`, keyboard shortcuts, `logout` and `getCurrentAdmin` pass-throughs are left out. They are assignments of constants or direct delegation.
- The testimonials page's `deleteTestimonial` and `loadTestimonials` are left out. They confirm, call the service and reload, with no rule of their own.
- `isAuthenticated` (an observable of `isLoggedIn`) is left out, as are the route tables and the route guard, which only ask `isLoggedIn`.
- CategoryEditor.AddCategory: "gives back the original list" is promised only when no category already carries `temp-<stamp>`. Two adds in the same `Date.now()` millisecond share that id, and then a failed rollback also drops the earlier row. The general clause states this outcome as `AddCategoryRollback` of the old list.
- CategoryEditor.RollbackAfterApply: requires that the temporary id is fresh, for the same reason. `RollbackDropsTemp` states the general case.
- CategoryEditor.AddSubcategory: the failure case is stated only when the target has no row with the fresh temporary id, as it is when `Date.now()` is fresh.
- Carousel.NextTimesIndex: stated for up to `length` steps from an in-range index, which covers one full round.
