/** The two persisted record types, `Photo` and `Pin`, and the managed-object context that
    holds them. The context is an abstract record store: the set of live records and the
    set last committed by a save. */
module Records {
  import opened Basics
  import opened Json
  import opened FlickrConstants

  type Bytes = seq<bv8>

  /** A decoded picture; what `UIImage(data:)` builds from image bytes. */
  datatype Image = Image(pixels: Bytes)

  /** The members of an optional to-many relationship; an absent set has none. */
  function Members<T>(s: Option<set<T>>): set<T> {
    if s.Some? then s.value else {}
  }

  /** The managed-object context: the records inserted and not deleted, and the records
      that the last save made durable. */
  class Context {
    var photos: set<Photo>
    var pins: set<Pin>
    var savedPhotos: set<Photo>
    var savedPins: set<Pin>

    constructor ()
      ensures photos == {} && pins == {} && savedPhotos == {} && savedPins == {}
    {
      photos, pins, savedPhotos, savedPins := {}, {}, {}, {};
    }

    /** `deleteObject` on a photo: it leaves the live records; nothing else changes. */
    method DeleteObject(photo: Photo)
      modifies this
      ensures photos == old(photos) - {photo}
      ensures pins == old(pins) && savedPhotos == old(savedPhotos) && savedPins == old(savedPins)
    {
      photos := photos - {photo};
    }

    /** `saveContext`: the live records become the durable ones. */
    method SaveContext()
      modifies this
      ensures savedPhotos == photos && savedPins == pins
      ensures photos == old(photos) && pins == old(pins)
    {
      savedPhotos, savedPins := photos, pins;
    }
  }

  /** A photo record: title and remote path from a search result, cached image data
      and the owning pin. */
  class Photo {
    var title: Option<string>
    var path: Option<string>
    var imageData: Option<Bytes>
    var pin: Pin?

    /** Whether a photo holds exactly what the initializer builds from a result
        dictionary. */
    ghost predicate BuiltFrom(dictionary: Dictionary, keys: ResponseKeys)
      reads this
    {
      && title == StringAt(dictionary, keys.title)
      && path == StringAt(dictionary, keys.mediumURL)
      && imageData.None?
      && pin == null
    }

    /** `init(dictionary:context:)`: inserts a new photo into the context and sets only its
        title and path, each taken when the dictionary's entry is a string. */
    constructor (dictionary: Dictionary, context: Context, keys: ResponseKeys)
      modifies context
      ensures BuiltFrom(dictionary, keys)
      ensures context.photos == old(context.photos) + {this}
      ensures context.pins == old(context.pins)
      ensures context.savedPhotos == old(context.savedPhotos) && context.savedPins == old(context.savedPins)
    {
      title := StringAt(dictionary, keys.title);
      path := StringAt(dictionary, keys.mediumURL);
      imageData := None;
      pin := null;
      new;
      context.photos := context.photos + {this};
    }

    /** `photosFromArrayOfDictionaries`: one new photo per dictionary, in the same order. */
    static method PhotosFromArrayOfDictionaries(dictionaries: seq<Dictionary>, context: Context, keys: ResponseKeys)
      returns (photos: seq<Photo>)
      modifies context
      ensures |photos| == |dictionaries|
      ensures forall i :: 0 <= i < |photos| ==> fresh(photos[i]) && photos[i].BuiltFrom(dictionaries[i], keys)
      ensures forall i, j :: 0 <= i < j < |photos| ==> photos[i] != photos[j]
      ensures context.photos == old(context.photos) + Elements(photos)
      ensures context.pins == old(context.pins)
      ensures context.savedPhotos == old(context.savedPhotos) && context.savedPins == old(context.savedPins)
    {
      photos := [];
      for i := 0 to |dictionaries|
        invariant |photos| == i
        invariant forall j :: 0 <= j < i ==> fresh(photos[j]) && photos[j].BuiltFrom(dictionaries[j], keys)
        invariant forall j, k :: 0 <= j < k < i ==> photos[j] != photos[k]
        invariant context.photos == old(context.photos) + Elements(photos)
        invariant context.pins == old(context.pins)
        invariant context.savedPhotos == old(context.savedPhotos) && context.savedPins == old(context.savedPins)
      {
        var photo := new Photo(dictionaries[i], context, keys);
        photos := photos + [photo];
      }
    }

    /** `getImage`: no image without image data; otherwise whatever decoding the data
        yields (decoding itself is given as `decode`). */
    function GetImage(decode: Bytes -> Option<Image>): (image: Option<Image>)
      reads this
      ensures imageData.None? ==> image.None?
      ensures imageData.Some? ==> image == decode(imageData.value)
    {
      if imageData.None? then None else decode(imageData.value)
    }

    /** Assigning `photo.pin`: the relationship and its inverse `Pin.photos` are kept in
        step, so the photo leaves its previous pin's set and joins the new one. */
    method SetPin(newPin: Pin)
      modifies this, newPin, pin
      ensures pin == newPin
      ensures newPin.photos == Some(Members(old(newPin.photos)) + {this})
      ensures old(pin) != null && old(pin) != newPin ==>
                old(pin).photos == (if old(pin.photos).Some? then Some(old(pin.photos).value - {this}) else None)
      ensures title == old(title) && path == old(path) && imageData == old(imageData)
    {
      if pin != null && pin != newPin && pin.photos.Some? {
        pin.photos := Some(pin.photos.value - {this});
      }
      newPin.photos := Some(Members(newPin.photos) + {this});
      pin := newPin;
    }
  }

  /** A location marker with its coordinates and its (optional) set of photos. */
  class Pin {
    const latitude: real
    const longitude: real
    var photos: Option<set<Photo>>

    /** `init(latitude:longitude:context:)`: inserts a new pin holding exactly the given
        coordinates; a freshly inserted object has an empty photo set. */
    constructor (latitude: real, longitude: real, context: Context)
      modifies context
      ensures this.latitude == latitude && this.longitude == longitude
      ensures photos == Some({})
      ensures context.pins == old(context.pins) + {this}
      ensures context.photos == old(context.photos)
      ensures context.savedPhotos == old(context.savedPhotos) && context.savedPins == old(context.savedPins)
    {
      this.latitude := latitude;
      this.longitude := longitude;
      photos := Some({});
      new;
      context.pins := context.pins + {this};
    }

    /** `removePhotos`: deletes every photo of the pin's set from the context, one at a
        time; nothing when the set is absent, and no other record. */
    method RemovePhotos(context: Context)
      modifies context
      ensures context.photos == old(context.photos) - Members(photos)
      ensures photos.None? ==> context.photos == old(context.photos)
      ensures context.pins == old(context.pins)
      ensures context.savedPhotos == old(context.savedPhotos) && context.savedPins == old(context.savedPins)
      ensures photos == old(photos)
    {
      if photos.Some? {
        var all := photos.value;
        var rest := all;
        while rest != {}
          invariant rest <= all
          invariant context.photos == old(context.photos) - (all - rest)
          invariant context.pins == old(context.pins)
          invariant context.savedPhotos == old(context.savedPhotos) && context.savedPins == old(context.savedPins)
          decreases rest
        {
          var photo :| photo in rest;
          context.DeleteObject(photo);
          rest := rest - {photo};
        }
      }
    }
  }
}
