/**
 * Image URL normalisation (backend/src/utils/image.ts): turns a stored
 * image reference into an absolute URL, for one row or for a list of rows.
 */
module Image {
  import opened Js

  const UnsplashBase := "https://images.unsplash.com/"

  predicate IsAbsolute(t: string) {
    StartsWith(t, "http://") || StartsWith(t, "https://")
  }

  predicate IsUnsplashFragment(t: string) {
    StartsWith(t, "photo-") || Contains(t, "unsplash")
  }

  /** The Unsplash branch: the base followed by the fragment, one leading '/' dropped. */
  function UnsplashUrl(t: string): (r: string)
    requires Trimmed(t) && |t| >= 2
    ensures Trimmed(r) && StartsWith(r, "https://")
  {
    var tail := if StartsWith(t, "/") then t[1..] else t;
    var r := UnsplashBase + tail;
    assert r[|r| - 1] == t[|t| - 1];
    assert r[..8] == "https://";
    r
  }

  /** `normalizeImageUrl`: the result never has white space at either end. */
  function NormalizeImageUrl(url: Value): (r: string)
    ensures Trimmed(r)
  {
    if !Truthy(url) || !url.Str? then ""
    else
      var t := Trim(url.s);
      if IsAbsolute(t) then t
      else if IsUnsplashFragment(t) then
        UnsplashFragmentLength(t);
        UnsplashUrl(t)
      else t
  }

  lemma UnsplashFragmentLength(t: string)
    requires IsUnsplashFragment(t)
    ensures |t| >= 6
  {
    if !StartsWith(t, "photo-") {
      ContainsFits(t, "unsplash");
    }
  }

  /** null, undefined, the empty string and any non-string give "". */
  lemma NormalizeEmpty(url: Value)
    requires !Truthy(url) || !url.Str?
    ensures NormalizeImageUrl(url) == ""
  {
  }

  /** An absolute http(s) URL comes back trimmed and otherwise unchanged. */
  lemma NormalizeAbsolute(s: string)
    requires IsAbsolute(Trim(s))
    ensures NormalizeImageUrl(Str(s)) == Trim(s)
  {
  }

  /** A bare Unsplash fragment is put under the Unsplash base, one leading '/' dropped. */
  lemma NormalizeUnsplash(s: string)
    requires !IsAbsolute(Trim(s)) && IsUnsplashFragment(Trim(s))
    ensures StartsWith(Trim(s), "/") ==> NormalizeImageUrl(Str(s)) == UnsplashBase + Trim(s)[1..]
    ensures !StartsWith(Trim(s), "/") ==> NormalizeImageUrl(Str(s)) == UnsplashBase + Trim(s)
  {
    var t := Trim(s);
    assert NormalizeImageUrl(Str(s)) == UnsplashUrl(t) by {
      UnsplashFragmentLength(t);
      assert Truthy(Str(s)) by { assert |s| >= |t| >= 6; }
    }
  }

  /** Anything else comes back trimmed. */
  lemma NormalizeOther(s: string)
    requires s != "" && !IsAbsolute(Trim(s)) && !IsUnsplashFragment(Trim(s))
    ensures NormalizeImageUrl(Str(s)) == Trim(s)
  {
    assert Truthy(Str(s));
  }

  /** Normalising a normalised URL changes nothing. */
  lemma NormalizeIdempotent(url: Value)
    ensures NormalizeImageUrl(Str(NormalizeImageUrl(url))) == NormalizeImageUrl(url)
  {
    if url.Str? && url.s != "" {
      var t := Trim(url.s);
      var r := NormalizeImageUrl(url);
      if IsAbsolute(t) {
        NormalizeAbsolute(url.s);
        NormalizeTrimmedAbsolute(r);
      } else if IsUnsplashFragment(t) {
        UnsplashFragmentLength(t);
        assert r == UnsplashUrl(t);
        NormalizeTrimmedAbsolute(r);
      } else {
        NormalizeOther(url.s);
        if r != "" {
          TrimOfTrimmed(r);
          NormalizeOther(r);
        }
      }
    }
  }

  lemma NormalizeTrimmedAbsolute(r: string)
    requires Trimmed(r) && IsAbsolute(r)
    ensures NormalizeImageUrl(Str(r)) == r
  {
    TrimOfTrimmed(r);
    NormalizeAbsolute(r);
  }

  /** The element type `{ image_url?: string | null }`: an object, or a falsy value the guard returns as is. */
  predicate IsImageRecord(item: Value) {
    item.Obj? || !Truthy(item)
  }

  /**
   * `withNormalizedImage`: a falsy item is returned as it is; an object
   * gets `image_url` normalised and keeps every other field.
   */
  function WithNormalizedImage(item: Value): (r: Value)
    requires IsImageRecord(item)
    ensures !Truthy(item) ==> r == item
    ensures item.Obj? ==> r.Obj? && r.fields.Keys == item.fields.Keys + {"image_url"}
    ensures item.Obj? ==> r.fields["image_url"] == Str(NormalizeImageUrl(Field(item.fields, "image_url")))
    ensures item.Obj? ==> forall k :: k in item.fields && k != "image_url" ==> r.fields[k] == item.fields[k]
  {
    if !Truthy(item) then item
    else Obj(item.fields["image_url" := Str(NormalizeImageUrl(Field(item.fields, "image_url")))])
  }

  /** The element type of `withNormalizedImages`' argument. */
  predicate IsImageList(items: Value) {
    items.Arr? ==> forall i :: 0 <= i < |items.elems| ==> IsImageRecord(items.elems[i])
  }

  /**
   * `withNormalizedImages`: null and non-arrays give []; an array keeps its
   * length and order, each element passed through `withNormalizedImage`.
   */
  function WithNormalizedImages(items: Value): (r: seq<Value>)
    requires IsImageList(items)
    ensures !items.Arr? ==> r == []
    ensures items.Arr? ==> |r| == |items.elems|
    ensures items.Arr? ==> forall i :: 0 <= i < |r| ==> r[i] == WithNormalizedImage(items.elems[i])
  {
    if !Truthy(items) || !items.Arr? then []
    else seq(|items.elems|, i requires 0 <= i < |items.elems| => WithNormalizedImage(items.elems[i]))
  }

  /** Normalising one record twice is normalising it once. */
  lemma WithNormalizedImageIdempotent(item: Value)
    requires IsImageRecord(item)
    ensures IsImageRecord(WithNormalizedImage(item))
    ensures WithNormalizedImage(WithNormalizedImage(item)) == WithNormalizedImage(item)
  {
    if item.Obj? {
      var once := WithNormalizedImage(item);
      var twice := WithNormalizedImage(once);
      NormalizeIdempotent(Field(item.fields, "image_url"));
      assert twice.fields == once.fields;
    }
  }

  /** Normalising a normalised list changes nothing. */
  lemma WithNormalizedImagesIdempotent(items: Value)
    requires IsImageList(items)
    ensures IsImageList(Arr(WithNormalizedImages(items)))
    ensures WithNormalizedImages(Arr(WithNormalizedImages(items))) == WithNormalizedImages(items)
  {
    var once := WithNormalizedImages(items);
    forall i | 0 <= i < |once|
      ensures IsImageRecord(once[i]) && WithNormalizedImage(once[i]) == once[i]
    {
      WithNormalizedImageIdempotent(items.elems[i]);
    }
  }
}
