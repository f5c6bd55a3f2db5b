/** The admin products page: the subcategory picker that follows the chosen
    category, the comma-separated sizes field, and the validation and
    payload clean-up that run before a product is created or updated. */
module ProductsAdmin {
  import opened Common
  import opened Text
  import opened Js
  import opened Catalog
  import opened Upload

  // ------------------------------------------------------ subcategory picker

  /** The test `s.category_id == catId`, with loose equality: the drop-down
      may hand over the id as text. */
  function UnderCategory(catId: Value): Subcategory -> bool {
    (s: Subcategory) => LooseEq(IdValue(s.categoryId), catId)
  }

  /** `subsForCategory`: nothing for a falsy id, otherwise the fetched
      subcategories under that category, in fetched order. */
  function SubsForCategory(subs: seq<Subcategory>, catId: Value): (r: seq<Subcategory>)
    ensures !Truthy(catId) ==> r == []
    ensures Subsequence(r, subs)
    ensures Truthy(catId) ==>
      && (forall i :: 0 <= i < |r| ==> LooseEq(IdValue(r[i].categoryId), catId))
      && (forall i :: 0 <= i < |subs| && LooseEq(IdValue(subs[i].categoryId), catId) ==> subs[i] in r)
    ensures Truthy(catId) ==>
      forall x :: multiset(r)[x] == if LooseEq(IdValue(x.categoryId), catId) then multiset(subs)[x] else 0
  {
    if !Truthy(catId) then []
    else
      FilterIsSubsequence(subs, UnderCategory(catId));
      FilterCounts(subs, UnderCategory(catId));
      Filter(subs, UnderCategory(catId))
  }

  lemma {:induction false} FilterSameTest<T>(s: seq<T>, p: T -> bool, q: T -> bool)
    requires forall i :: 0 <= i < |s| ==> p(s[i]) == q(s[i])
    ensures Filter(s, p) == Filter(s, q)
    decreases |s|
  {
    if s != [] {
      FilterSameTest(s[1..], p, q);
    }
  }

  /** The drop-down hands over a numeric id as its decimal text; loose
      equality makes that select the same subcategories as the number
      itself, for every id except 0, whose text is truthy while the number
      is not. */
  lemma SubsForCategoryIdText(subs: seq<Subcategory>, n: int)
    requires n != 0
    ensures SubsForCategory(subs, Str(IntToString(n))) == SubsForCategory(subs, Num(n))
  {
    IntToStringStart(n);
    forall i | 0 <= i < |subs|
      ensures UnderCategory(Str(IntToString(n)))(subs[i]) == UnderCategory(Num(n))(subs[i])
    {
      LooseEqIdText(subs[i].categoryId, n);
    }
    FilterSameTest(subs, UnderCategory(Str(IntToString(n))), UnderCategory(Num(n)));
  }

  /** The id the subcategory picker falls back to when the category
      changes: the first subcategory under it, or `null`. */
  function FirstSubId(subs: seq<Subcategory>, catId: Value): (r: Value)
    ensures SubsForCategory(subs, catId) == [] <==> r == Null
    ensures r != Null ==> r == IdValue(SubsForCategory(subs, catId)[0].id)
  {
    var candidates := SubsForCategory(subs, catId);
    if |candidates| > 0 then IdValue(candidates[0].id) else Null
  }

  // ---------------------------------------------------------------- sizes

  function TrimEach(xs: seq<string>): (r: seq<string>)
    ensures |r| == |xs|
    ensures forall i :: 0 <= i < |xs| ==> r[i] == Trim(xs[i])
  {
    seq(|xs|, i requires 0 <= i < |xs| => Trim(xs[i]))
  }

  /** `filter(Boolean)` on text keeps the non-empty pieces. */
  function NonEmpty(): string -> bool {
    (s: string) => s != ""
  }

  /** `text.split(',').map(s => s.trim()).filter(Boolean)`. */
  function ParseSizesText(text: string): (r: seq<string>)
    ensures forall i :: 0 <= i < |r| ==> r[i] != "" && IsTrimmed(r[i]) && ',' !in r[i]
    ensures Subsequence(r, TrimEach(Split(text, ',')))
    ensures forall i :: 0 <= i < |TrimEach(Split(text, ','))| && TrimEach(Split(text, ','))[i] != "" ==>
      TrimEach(Split(text, ','))[i] in r
  {
    var split := Split(text, ',');
    var pieces := TrimEach(split);
    assert forall i :: 0 <= i < |pieces| ==> ',' !in pieces[i] by {
      forall i | 0 <= i < |pieces| ensures ',' !in pieces[i] {
        TrimKeepsAbsent(split[i], ',');
      }
    }
    FilterIsSubsequence(pieces, NonEmpty());
    Filter(pieces, NonEmpty())
  }

  /** The `sizes` field of the edit row: parsed when truthy (after
      `String(...)`), otherwise no sizes. */
  function ParseSizes(v: Value): (r: seq<string>)
    ensures !Truthy(v) ==> r == []
    ensures Truthy(v) ==> r == ParseSizesText(ToJsString(v))
    ensures forall i :: 0 <= i < |r| ==> r[i] != "" && IsTrimmed(r[i]) && ',' !in r[i]
  {
    if Truthy(v) then ParseSizesText(ToJsString(v)) else []
  }

  /** A list of texts as the JavaScript array of strings. */
  function TextArray(xs: seq<string>): (r: Value)
    ensures r.Arr? && |r.items| == |xs|
    ensures forall i :: 0 <= i < |xs| ==> r.items[i] == Str(xs[i])
  {
    Arr(seq(|xs|, i requires 0 <= i < |xs| => Str(xs[i])))
  }

  /** How `join` prints an array element. */
  function ElementText(v: Value): string {
    if v.Null? || v.Undefined? then "" else ToJsString(v)
  }

  function ElementTexts(items: seq<Value>): (r: seq<string>)
    ensures |r| == |items|
    ensures forall i :: 0 <= i < |items| ==> r[i] == ElementText(items[i])
  {
    seq(|items|, i requires 0 <= i < |items| => ElementText(items[i]))
  }

  /** `(p.sizes || []).join(', ')`; `None` when `sizes` is truthy but not
      an array, where `join` is not a function. */
  function FormatSizes(sizes: Value): (r: Option<string>)
    ensures !Truthy(sizes) ==> r == Some("")
    ensures sizes.Arr? ==> r.Some?
    ensures Truthy(sizes) && !sizes.Arr? ==> r.None?
  {
    if !Truthy(sizes) then Some("")
    else if sizes.Arr? then Some(Join(ElementTexts(sizes.items), ", "))
    else None
  }

  function PadAll(parts: seq<string>): (r: seq<string>)
    ensures |r| == |parts|
    ensures forall i :: 0 <= i < |parts| ==> r[i] == " " + parts[i]
  {
    seq(|parts|, i requires 0 <= i < |parts| => " " + parts[i])
  }

  lemma {:induction false} PaddedJoin(parts: seq<string>)
    requires |parts| >= 1
    ensures " " + Join(parts, ", ") == Join(PadAll(parts), ",")
    decreases |parts|
  {
    if |parts| > 1 {
      var rest := parts[1..];
      var j := Join(rest, ", ");
      PaddedJoin(rest);
      assert PadAll(parts) == [" " + parts[0]] + PadAll(rest);
      JoinCons(" " + parts[0], PadAll(rest), ",");
      assert Join(parts, ", ") == parts[0] + ", " + j;
      assert " " + (parts[0] + ", " + j) == (" " + parts[0]) + "," + (" " + j);
    }
  }

  lemma Regroup(a: string, b: string, c: string, d: string)
    ensures a + (b + c) + d == a + b + (c + d)
  {
  }

  /** Joining with ', ' is joining with ',' after padding every piece but the
      first with a space. */
  lemma CommaSpaceJoin(parts: seq<string>)
    requires |parts| >= 1
    ensures Join(parts, ", ") == Join([parts[0]] + PadAll(parts[1..]), ",")
  {
    if |parts| > 1 {
      var rest := parts[1..];
      var j := Join(rest, ", ");
      PaddedJoin(rest);
      JoinCons(parts[0], PadAll(rest), ",");
      assert Join(parts, ", ") == parts[0] + ", " + j;
      assert ", " == "," + " ";
      Regroup(parts[0], ",", " ", j);
    } else {
      assert [parts[0]] + PadAll(parts[1..]) == [parts[0]];
    }
  }

  /** Sizes as the edit row shows them come back unchanged when the row is
      saved, provided each size is non-empty, trimmed and comma-free. */
  lemma SizesRoundTrip(sizes: seq<string>)
    requires forall i :: 0 <= i < |sizes| ==> sizes[i] != "" && IsTrimmed(sizes[i]) && ',' !in sizes[i]
    ensures ParseSizesText(Join(sizes, ", ")) == sizes
  {
    ParseSizesTextIsFilter(Join(sizes, ", "));
    if sizes == [] {
      NoSizesRoundTrip();
    } else {
      SplitCommaSpaceJoin(sizes);
      TrimPadded(sizes);
      FilterKeepsAll(sizes, NonEmpty());
    }
  }

  lemma ParseSizesTextIsFilter(text: string)
    ensures ParseSizesText(text) == Filter(TrimEach(Split(text, ',')), NonEmpty())
  {
  }

  /** An empty size list is saved as no sizes. */
  lemma NoSizesRoundTrip()
    ensures Filter(TrimEach(Split(Join([], ", "), ',')), NonEmpty()) == []
  {
    assert Split("", ',') == [""];
    assert TrimEach([""]) == [""] by { TrimOfTrimmed(""); }
    assert Filter([""], NonEmpty()) == [];
  }

  lemma SplitCommaSpaceJoin(sizes: seq<string>)
    requires |sizes| >= 1
    requires forall i :: 0 <= i < |sizes| ==> ',' !in sizes[i]
    ensures Split(Join(sizes, ", "), ',') == [sizes[0]] + PadAll(sizes[1..])
  {
    var padded := [sizes[0]] + PadAll(sizes[1..]);
    CommaSpaceJoin(sizes);
    forall i | 0 <= i < |padded| ensures ',' !in padded[i] {
      if i > 0 {
        assert padded[i] == " " + sizes[i];
      }
    }
    SplitJoin(padded, ',');
  }

  lemma TrimPadded(sizes: seq<string>)
    requires |sizes| >= 1
    requires forall i :: 0 <= i < |sizes| ==> IsTrimmed(sizes[i])
    ensures TrimEach([sizes[0]] + PadAll(sizes[1..])) == sizes
  {
    var padded := [sizes[0]] + PadAll(sizes[1..]);
    var trimmed := TrimEach(padded);
    forall i | 0 <= i < |sizes| ensures trimmed[i] == sizes[i] {
      if i > 0 {
        assert padded[i] == " " + sizes[i];
        TrimSpaceThen(sizes[i]);
      } else {
        TrimOfTrimmed(sizes[i]);
      }
    }
  }

  /** Opening a row for editing and saving it again gives the same sizes
      back. */
  lemma EditSaveSizes(sizes: seq<string>)
    requires forall i :: 0 <= i < |sizes| ==> sizes[i] != "" && IsTrimmed(sizes[i]) && ',' !in sizes[i]
    ensures FormatSizes(TextArray(sizes)).Some?
    ensures ParseSizes(Str(FormatSizes(TextArray(sizes)).value)) == sizes
  {
    var text := Join(sizes, ", ");
    assert ElementTexts(TextArray(sizes).items) == sizes;
    assert FormatSizes(TextArray(sizes)) == Some(text);
    SizesRoundTrip(sizes);
    if sizes != [] {
      JoinNonEmpty(sizes, ", ");
      assert Truthy(Str(text)) && ToJsString(Str(text)) == text;
    } else {
      assert text == "";
    }
  }

  lemma {:induction false} JoinNonEmpty(parts: seq<string>, sep: string)
    requires |parts| >= 1 && parts[0] != ""
    ensures Join(parts, sep) != ""
  {
    if |parts| > 1 {
      assert Join(parts, sep)[0] == parts[0][0];
    }
  }

  // ------------------------------------------------------------- page state

  /** The component state the product operations touch: the add form, the
      row being edited, and the ids of the rows being saved or deleted. */
  datatype Admin = Admin(model: Record, editId: Value, editModel: Option<Record>, saving: Value, deleting: Value)

  /** The add form as `addProduct` leaves it after a successful create. */
  function EmptyForm(): Record {
    map["name" := Str(""), "price" := Num(0), "image_url" := Str(""), "color" := Str(""),
        "quantity" := Num(0), "details" := Str(""),
        "status" := Str("\U{0645}\U{062A}\U{0627}\U{062D}"), "sizes" := Str(""), "category_id" := Null]
  }

  /** `onCategoryChangeForNew`: the add form's subcategory follows the
      category. */
  function OnCategoryChangeForNew(st: Admin, subs: seq<Subcategory>, categoryId: Value): (r: Admin)
    ensures r.model.Keys == st.model.Keys + {"subcategory_id"}
    ensures Get(r.model, "subcategory_id") == FirstSubId(subs, categoryId)
    ensures forall k :: k in st.model && k != "subcategory_id" ==> r.model[k] == st.model[k]
    ensures r.editModel == st.editModel
    ensures r.editId == st.editId && r.saving == st.saving && r.deleting == st.deleting
  {
    st.(model := st.model["subcategory_id" := FirstSubId(subs, categoryId)])
  }

  /** `onCategoryChangeForEdit`: the same for the edit row, which does
      nothing when no row is being edited. */
  function OnCategoryChangeForEdit(st: Admin, subs: seq<Subcategory>): (r: Admin)
    ensures st.editModel.None? ==> r == st
    ensures st.editModel.Some? ==>
      && r.editModel.Some?
      && Get(r.editModel.value, "subcategory_id") == FirstSubId(subs, Get(st.editModel.value, "category_id"))
      && r.editModel.value.Keys == st.editModel.value.Keys + {"subcategory_id"}
      && (forall k :: k != "subcategory_id" ==> Get(r.editModel.value, k) == Get(st.editModel.value, k))
      && r.model == st.model
      && r.editId == st.editId && r.saving == st.saving && r.deleting == st.deleting
  {
    match st.editModel
    case None => st
    case Some(m) => st.(editModel := Some(m["subcategory_id" := FirstSubId(subs, Get(m, "category_id"))]))
  }

  /** `editProduct`: `editId` is set first; then the row is copied into
      the edit model with its sizes joined for the text box.  When the
      sizes cannot be joined, `join` throws after `editId` was set, so the
      edit model stays as it was; the flag says whether the copy was made. */
  function EditProduct(st: Admin, p: Record): (r: (Admin, bool))
    ensures r.0.editId == Get(p, "id")
    ensures r.1 <==> FormatSizes(Get(p, "sizes")).Some?
    ensures !r.1 ==> r.0 == st.(editId := Get(p, "id"))
    ensures r.1 ==>
      && r.0.editModel.Some?
      && r.0.editModel.value.Keys == p.Keys + {"sizes"}
      && Get(r.0.editModel.value, "sizes") == Str(FormatSizes(Get(p, "sizes")).value)
      && (forall k :: k in p && k != "sizes" ==> r.0.editModel.value[k] == p[k])
      && r.0.model == st.model && r.0.saving == st.saving && r.0.deleting == st.deleting
  {
    var marked := st.(editId := Get(p, "id"));
    match FormatSizes(Get(p, "sizes"))
    case None => (marked, false)
    case Some(text) => (marked.(editModel := Some(p["sizes" := Str(text)])), true)
  }

  function CancelEdit(st: Admin): (r: Admin)
    ensures r.editId == Null && r.editModel.None?
    ensures r.model == st.model && r.saving == st.saving && r.deleting == st.deleting
  {
    st.(editId := Null, editModel := None)
  }

  /** `isOperationInProgress`: the row is being saved or deleted. */
  predicate IsOperationInProgress(st: Admin, productId: Value) {
    st.saving == productId || st.deleting == productId
  }

  // ---------------------------------------------------------- image picker

  /** `onImageSelected`: an accepted file becomes the form's image as the
      data URL the file reader produces (`dataUrl`); a refused one leaves
      the form as it was. */
  function OnImageSelected(st: Admin, file: Option<FileInfo>, dataUrl: string): (r: (Admin, Verdict))
    ensures r.1 == CheckImage(file, ProductImageLimit)
    ensures r.1 == Accepted ==> r.0 == st.(model := st.model["image_url" := Str(dataUrl)])
    ensures r.1 != Accepted ==> r.0 == st
  {
    var verdict := CheckImage(file, ProductImageLimit);
    if verdict == Accepted then (st.(model := st.model["image_url" := Str(dataUrl)]), verdict) else (st, verdict)
  }

  /** `removeImage`: clears the form's image and nothing else. */
  function RemoveImage(st: Admin): (r: Admin)
    ensures Get(r.model, "image_url") == Str("") && !Truthy(Get(r.model, "image_url"))
    ensures r.model.Keys == st.model.Keys + {"image_url"}
    ensures forall k :: k != "image_url" ==> Get(r.model, k) == Get(st.model, k)
    ensures r.editModel == st.editModel && r.editId == st.editId
    ensures r.saving == st.saving && r.deleting == st.deleting
  {
    st.(model := st.model["image_url" := Str("")])
  }

  /** A picture of exactly 5 MiB is taken; a non-image never is. */
  lemma ProductImageBoundary(st: Admin, name: string, mimeType: string, dataUrl: string)
    ensures StartsWith(mimeType, "image/") ==>
      OnImageSelected(st, Some(FileInfo(name, mimeType, 5242880)), dataUrl).1 == Accepted
    ensures StartsWith(mimeType, "image/") ==>
      OnImageSelected(st, Some(FileInfo(name, mimeType, 5242881)), dataUrl) == (st, TooLarge)
    ensures !StartsWith(mimeType, "image/") ==>
      forall size: nat :: OnImageSelected(st, Some(FileInfo(name, mimeType, size)), dataUrl) == (st, NotAnImage)
  {
  }

  // ------------------------------------------------------------ addProduct

  datatype AddOutcome =
    | NeedCategory
    | SizesNotText
    | Create(payload: Record)

  /** `addProduct`: a form with no category is refused; otherwise the form
      goes out with its sizes parsed into a list, and the form is cleared
      only when the create succeeds.  Sizes that are truthy but not text
      make `split` throw before anything is sent. */
  function AddProduct(st: Admin, reply: Reply<()>): (r: (Admin, AddOutcome))
    ensures r.1.NeedCategory? <==> !Truthy(Get(st.model, "category_id"))
    ensures r.1.SizesNotText? <==>
      Truthy(Get(st.model, "category_id")) && Truthy(Get(st.model, "sizes")) && !Get(st.model, "sizes").Str?
    ensures Truthy(Get(st.model, "category_id")) && (!Truthy(Get(st.model, "sizes")) || Get(st.model, "sizes").Str?)
            ==> r.1.Create?
    ensures r.1.NeedCategory? || r.1.SizesNotText? ==> r.0 == st
    ensures r.1.Create? ==>
      && Truthy(Get(st.model, "category_id"))
      && r.1.payload.Keys == st.model.Keys + {"sizes"}
      && (forall k :: k in st.model && k != "sizes" ==> r.1.payload[k] == st.model[k])
      && (Truthy(Get(st.model, "sizes")) ==>
            Get(st.model, "sizes").Str? && r.1.payload["sizes"] == TextArray(ParseSizesText(Get(st.model, "sizes").s)))
      && (!Truthy(Get(st.model, "sizes")) ==> r.1.payload["sizes"] == TextArray([]))
      && (reply.Ok? ==> r.0 == st.(model := EmptyForm()))
      && (reply.Failed? ==> r.0 == st)
  {
    var m := st.model;
    if !Truthy(Get(m, "category_id")) then (st, NeedCategory)
    else
      var sizes := Get(m, "sizes");
      if Truthy(sizes) && !sizes.Str? then (st, SizesNotText)
      else
        var list := if Truthy(sizes) then ParseSizesText(sizes.s) else [];
        var payload := m["sizes" := TextArray(list)];
        if reply.Ok? then (st.(model := EmptyForm()), Create(payload)) else (st, Create(payload))
  }

  /** A successful add clears the form, so adding again at once is
      refused for want of a category. */
  lemma AddClearsForm(st: Admin)
    requires AddProduct(st, Ok(())).1.Create?
    ensures forall reply: Reply<()> :: AddProduct(AddProduct(st, Ok(())).0, reply) == (AddProduct(st, Ok(())).0, NeedCategory)
  {
  }

  // --------------------------------------------------------------- saveEdit

  /** Whether the update must not carry this field: the id, the joined
      relations, or any value `typeof` calls an object that is not an
      array (which includes `null`). */
  predicate Dropped(k: string, v: Value) {
    k == "id" || k == "categories" || k == "categories_id" || (TypeofObject(v) && !v.Arr?)
  }

  /** The `delete` statements and the clean-up loop of `saveEdit`. */
  function StripPayload(m: Record): (r: Record)
    ensures forall k :: k in r ==> k in m && r[k] == m[k]
    ensures forall k :: k in r ==> k != "id" && k != "categories" && k != "categories_id"
    ensures forall k :: k in r ==> !r[k].Null? && !r[k].Obj?
    ensures forall k :: k in m && !Dropped(k, m[k]) ==> k in r
  {
    map k | k in m && !Dropped(k, m[k]) :: m[k]
  }

  lemma StripIdempotent(m: Record)
    ensures StripPayload(StripPayload(m)) == StripPayload(m)
  {
  }

  datatype Field = Name | Price | Category

  datatype SaveOutcome =
    | NoEdit
    | Rejected(field: Field)
    | NameNotText
    | Update(id: Value, payload: Record)

  /** The validation of `saveEdit`, in its order: name, then price, then
      category.  A name that is neither text nor missing makes `trim`
      throw. */
  function Validate(m: Record): (r: Option<SaveOutcome>)
    ensures r.Some? ==> r.value.Rejected? || r.value.NameNotText?
    ensures r == Some(Rejected(Field.Name)) <==>
      Get(m, "name").Undefined? || Get(m, "name").Null? || (Get(m, "name").Str? && IsBlank(Get(m, "name").s))
    ensures r == Some(NameNotText) <==>
      !(Get(m, "name").Undefined? || Get(m, "name").Null? || Get(m, "name").Str?)
    ensures r == Some(Rejected(Field.Price)) <==>
      && Get(m, "name").Str? && !IsBlank(Get(m, "name").s)
      && (!Truthy(Get(m, "price")) || AtMostZero(Get(m, "price")))
    ensures r == Some(Rejected(Field.Category)) <==>
      && Get(m, "name").Str? && !IsBlank(Get(m, "name").s)
      && Truthy(Get(m, "price")) && !AtMostZero(Get(m, "price"))
      && !Truthy(Get(m, "category_id"))
    ensures r.None? <==>
      && Get(m, "name").Str? && !IsBlank(Get(m, "name").s)
      && Truthy(Get(m, "price")) && !AtMostZero(Get(m, "price"))
      && Truthy(Get(m, "category_id"))
  {
    var name := Get(m, "name");
    if name.Undefined? || name.Null? then Some(Rejected(Field.Name))
    else if !name.Str? then Some(NameNotText)
    else if IsBlank(name.s) then Some(Rejected(Field.Name))
    else if !Truthy(Get(m, "price")) || AtMostZero(Get(m, "price")) then Some(Rejected(Field.Price))
    else if !Truthy(Get(m, "category_id")) then Some(Rejected(Field.Category))
    else None
  }

  /** The synchronous part of `saveEdit(id)`, up to the update call:
      nothing without an edit row; a row that fails validation is refused
      with no state change; otherwise the saving marker is set to `id` and
      the cleaned-up row with its sizes parsed is what goes out. */
  function SaveStart(st: Admin, id: Value): (r: (Admin, SaveOutcome))
    ensures st.editModel.None? ==> r == (st, NoEdit)
    ensures st.editModel.Some? ==> (r.1.Update? <==> Validate(st.editModel.value).None?)
    ensures st.editModel.Some? && Validate(st.editModel.value).Some? ==>
      r == (st, Validate(st.editModel.value).value)
    ensures r.1.Update? ==>
      && st.editModel.Some?
      && r.0 == st.(saving := id)
      && r.1.id == id
      && r.1.payload == StripPayload(st.editModel.value["sizes" := TextArray(ParseSizes(Get(st.editModel.value, "sizes")))])
  {
    match st.editModel
    case None => (st, NoEdit)
    case Some(m) =>
      match Validate(m)
      case Some(refusal) => (st, refusal)
      case None =>
        var updates := m["sizes" := TextArray(ParseSizes(Get(m, "sizes")))];
        (st.(saving := id), Update(id, StripPayload(updates)))
  }

  /** How the update call settles: a success closes the edit row; the
      saving marker is cleared either way. */
  function SaveSettle(st: Admin, reply: Reply<()>): (r: Admin)
    ensures r.saving == Null
    ensures reply.Ok? ==> r.editId == Null && r.editModel.None?
    ensures reply.Failed? ==> r.editId == st.editId && r.editModel == st.editModel
    ensures r.model == st.model && r.deleting == st.deleting
  {
    var after := if reply.Ok? then CancelEdit(st) else st;
    after.(saving := Null)
  }

  /** `saveEdit(id)` when nothing else runs between its start and the
      settling of the update. */
  function SaveEdit(st: Admin, id: Value, reply: Reply<()>): (r: (Admin, SaveOutcome))
    ensures st.editModel.None? ==> r == (st, NoEdit)
    ensures st.editModel.Some? ==> (r.1.Update? <==> Validate(st.editModel.value).None?)
    ensures st.editModel.Some? && Validate(st.editModel.value).Some? ==>
      r == (st, Validate(st.editModel.value).value)
    ensures !r.1.Update? ==> r.0 == st
    ensures r.1.Update? ==>
      && st.editModel.Some?
      && r.1.id == id
      && r.1.payload == StripPayload(st.editModel.value["sizes" := TextArray(ParseSizes(Get(st.editModel.value, "sizes")))])
      && r.0.saving == Null && r.0.deleting == st.deleting && r.0.model == st.model
      && (reply.Ok? ==> r.0.editId == Null && r.0.editModel.None?)
      && (reply.Failed? ==> r.0.editId == st.editId && r.0.editModel == st.editModel)
  {
    var (mid, outcome) := SaveStart(st, id);
    if outcome.Update? then (SaveSettle(mid, reply), outcome) else (mid, outcome)
  }

  /** Once a save has gone through, the edit row is closed and saving
      again does nothing. */
  lemma SaveClosesEdit(st: Admin, id: Value)
    requires SaveEdit(st, id, Ok(())).1.Update?
    ensures forall reply: Reply<()> :: SaveEdit(SaveEdit(st, id, Ok(())).0, id, reply) == (SaveEdit(st, id, Ok(())).0, NoEdit)
  {
  }

  /** The part of `deleteProduct` before the delete call: only a confirmed
      delete goes out, and the deleting marker is then set to `id`. */
  function DeleteStart(st: Admin, id: Value, confirmed: bool): (r: (Admin, bool))
    ensures r.1 <==> confirmed
    ensures !confirmed ==> r.0 == st
    ensures confirmed ==> r.0 == st.(deleting := id)
  {
    if !confirmed then (st, false) else (st.(deleting := id), true)
  }

  /** The `finally` of `deleteProduct`: the deleting marker is cleared,
      however the call settled. */
  function DeleteSettle(st: Admin): (r: Admin)
    ensures r.deleting == Null
    ensures r.model == st.model && r.saving == st.saving && r.editId == st.editId && r.editModel == st.editModel
  {
    st.(deleting := Null)
  }

  /** `deleteProduct` when nothing else runs between its start and the
      settling of the delete. */
  function DeleteProduct(st: Admin, id: Value, confirmed: bool): (r: (Admin, bool))
    ensures r.1 <==> confirmed
    ensures !confirmed ==> r.0 == st
    ensures confirmed ==> r.0 == st.(deleting := Null)
  {
    var (mid, sent) := DeleteStart(st, id, confirmed);
    if sent then (DeleteSettle(mid), true) else (mid, false)
  }

  /** A row is busy from the start of its save or delete until that call
      settles.  With a save and a delete of the same row overlapping, the
      row stays busy until both have settled, in either order. */
  lemma BusyWhileInFlight(st: Admin, id: Value, reply: Reply<()>)
    requires id != Null
    ensures SaveStart(st, id).1.Update? ==> IsOperationInProgress(SaveStart(st, id).0, id)
    ensures IsOperationInProgress(DeleteStart(st, id, true).0, id)
    ensures SaveEdit(st, id, reply).1.Update? ==>
      (IsOperationInProgress(SaveEdit(st, id, reply).0, id) <==> st.deleting == id)
    ensures IsOperationInProgress(DeleteProduct(st, id, true).0, id) <==> st.saving == id
    ensures SaveStart(st, id).1.Update? ==>
      var both := DeleteStart(SaveStart(st, id).0, id, true).0;
      && IsOperationInProgress(DeleteSettle(both), id)
      && IsOperationInProgress(SaveSettle(both, reply), id)
      && !IsOperationInProgress(SaveSettle(DeleteSettle(both), reply), id)
      && !IsOperationInProgress(DeleteSettle(SaveSettle(both, reply)), id)
  {
  }
}
