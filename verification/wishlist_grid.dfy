/** The wishlist component's add and delete handlers
    (components/santa/WishlistGrid.tsx). */
module WishlistGrid {
  import opened Wrappers
  import opened Schema
  import opened Feedback
  import opened JsText

  const TitleRequired: string := "El título es requerido"
  const ItemAdded: string := "¡Item agregado!"
  const AddFailedFallback: string := "Error al agregar item"
  const ItemDeleted: string := "Item eliminado"
  const DeleteFailedFallback: string := "Error al eliminar item"

  /** The two inputs of the add form. */
  datatype AddForm = AddForm(title: string, url: string)

  /** `newUrl.trim() || null`: the trimmed url, or null when nothing is left. */
  function NormalizeUrl(url: string): (r: Option<string>)
    ensures r.None? <==> AllWhitespace(url)
    ensures r.Some? ==> r.value == Trim(url) && r.value != []
  {
    TrimEmptyIffAllWhitespace(url);
    var t := Trim(url);
    if t == [] then None else Some(t)
  }

  /** `handleAdd` for the list of `userId`, with the id the datastore gives
      the new row and the message of the insert's error, if any.  Returns
      the toast, the form afterwards and the store. */
  function HandleAdd(s: Store, userId: UserId, form: AddForm, newId: ItemId, insertError: Option<string>): (r: (Toast, AddForm, Store))
    requires newId !in s.wishlist
    // An empty or blank title is refused; nothing is inserted and the form is kept.
    ensures AllWhitespace(form.title) ==> r == (ErrorToast(TitleRequired), form, s)
    ensures !AllWhitespace(form.title) && insertError.Some? ==>
      r == (ErrorToast(OrElse(insertError.value, AddFailedFallback)), form, s)
    // Otherwise one item with the trimmed title and normalised url, and the form is cleared.
    ensures !AllWhitespace(form.title) && insertError.None? ==>
      && r.0 == SuccessToast(ItemAdded) && r.1 == AddForm("", "")
      && r.2 == s.(wishlist := s.wishlist[newId := WishlistItem(userId, Trim(form.title), NormalizeUrl(form.url))])
      && Trim(form.title) != []
  {
    TrimEmptyIffAllWhitespace(form.title);
    var title := Trim(form.title);
    if title == [] then (ErrorToast(TitleRequired), form, s)
    else if insertError.Some? then (ErrorToast(OrElse(insertError.value, AddFailedFallback)), form, s)
    else
      var item := WishlistItem(userId, title, NormalizeUrl(form.url));
      (SuccessToast(ItemAdded), AddForm("", ""), s.(wishlist := s.wishlist[newId := item]))
  }

  /** `handleDelete(itemId)`: on success the item with that id is gone and
      every other item is kept; on error nothing changes. */
  function HandleDelete(s: Store, itemId: ItemId, deleteError: Option<string>): (r: (Toast, Store))
    ensures deleteError.Some? ==> r == (ErrorToast(OrElse(deleteError.value, DeleteFailedFallback)), s)
    ensures deleteError.None? ==> r.0 == SuccessToast(ItemDeleted) && itemId !in r.1.wishlist
    ensures forall id :: id in s.wishlist && id != itemId ==> id in r.1.wishlist && r.1.wishlist[id] == s.wishlist[id]
    ensures r.1.wishlist.Keys <= s.wishlist.Keys
    ensures r.1.profiles == s.profiles && r.1.groups == s.groups && r.1.participants == s.participants && r.1.matches == s.matches
  {
    if deleteError.Some? then (ErrorToast(OrElse(deleteError.value, DeleteFailedFallback)), s)
    else (SuccessToast(ItemDeleted), s.(wishlist := s.wishlist - {itemId}))
  }

  /** The controls the component renders for the listed items. */
  datatype Controls = Controls(addForm: bool, deleteButtons: seq<ItemId>)

  /** The add form and one delete button per item, all only for the owner. */
  function RenderControls(itemIds: seq<ItemId>, isOwner: bool): (r: Controls)
    ensures r.addForm == isOwner
    ensures isOwner ==> r.deleteButtons == itemIds
    ensures !isOwner ==> r.deleteButtons == []
  {
    Controls(isOwner, if isOwner then itemIds else [])
  }

  /** A delete reached from a rendered button needs an owner's view, and
      removes exactly the listed item behind that button. */
  lemma DeleteOnlyFromOwnerView(s: Store, itemIds: seq<ItemId>, isOwner: bool, k: nat)
    requires k < |RenderControls(itemIds, isOwner).deleteButtons|
    ensures isOwner && RenderControls(itemIds, isOwner).deleteButtons[k] == itemIds[k]
    ensures HandleDelete(s, itemIds[k], None).1.wishlist == s.wishlist - {itemIds[k]}
  {
  }
}
