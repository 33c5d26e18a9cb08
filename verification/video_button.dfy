/** The button a `video-note` block renders (view/VideoButton.tsx): which of the title, the time
    and the URL it shows. */
module VideoButton {
  import opened Wrappers

  /** The fields of a `video-note` block. */
  datatype ButtonData = ButtonData(url: Option<string>, title: Option<string>, ts: Option<string>)

  /** What the button shows next to its icon: a time element and a title element. */
  datatype ButtonView = ButtonView(time: Option<string>, title: Option<string>)

  /** The label choice: the title when there is one; the URL when there is neither a title nor a
      time; the time whenever there is one. Empty strings count as absent. */
  function Label(data: ButtonData): (v: ButtonView)
    ensures Present(data.title) ==> v.title == data.title
    ensures !Present(data.title) && !Present(data.ts) ==>
      v.title == (if Present(data.url) then data.url else None)
    ensures Present(data.ts) && !Present(data.title) ==> v.title.None?
    ensures v.time.Some? <==> Present(data.ts)
    ensures v.time.Some? ==> v.time == data.ts
  {
    var title := if !Present(data.title) && !Present(data.ts) then data.url else data.title;
    ButtonView(
      if Present(data.ts) then data.ts else None,
      if Present(title) then title else None)
  }

  /** The button shows no empty element, and it shows something exactly when the block has a
      title, a time or a URL. */
  lemma LabelNeverBlank(data: ButtonData)
    ensures var v := Label(data);
      && (v.title.Some? ==> Present(v.title))
      && (v.time.Some? ==> Present(v.time))
      && (v.title.Some? || v.time.Some? <==> Present(data.title) || Present(data.ts) || Present(data.url))
  {
  }
}
