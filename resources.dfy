/**
 * The resource pool: for each of three enum-keyed kinds (images, audio,
 * fonts) a table with one lazily filled cell per variant, and the loader the
 * game supplied for that kind. A cell is filled by its first `get` and the
 * loader is never run for it again.
 *
 * The enum's variant list (`IntoEnumIterator::iter`) is a constructor
 * argument, required to contain every value of the key type. The loaded
 * assets themselves are represented by opaque handles.
 */
module Resources {
  import opened Wrappers

  datatype Image = ImageHandle(image: nat)
  datatype Audio = AudioHandle(audio: nat)
  datatype Font = FontHandle(font: nat)

  /** A `HashMap<K, OnceCell<V>>` together with the loader that fills it. */
  class OnceTable<K(==, !new), V(==)> {
    var cells: map<K, Option<V>>
    const load: K -> V
    /** The ids the loader has been called with, in call order. */
    ghost var loads: seq<K>

    /**
     * Every id has a cell; a filled cell holds what the loader gave for its
     * id; the loader has run exactly for the filled cells, once each.
     */
    ghost predicate Valid()
      reads this
    {
      (forall id: K :: id in cells) &&
      (forall id :: id in cells && cells[id].Some? ==> cells[id].value == load(id)) &&
      (forall id :: id in cells ==> (cells[id].Some? <==> id in loads)) &&
      (forall i, j :: 0 <= i < j < |loads| ==> loads[i] != loads[j])
    }

    /** `new`'s loop: one empty cell per variant. */
    constructor (variants: seq<K>, load: K -> V)
      requires forall id: K :: id in variants
      ensures Valid() && this.load == load && loads == []
      ensures forall id :: id in cells ==> cells[id] == None
    {
      this.load := load;
      loads := [];
      var table: map<K, Option<V>> := map[];
      for i := 0 to |variants|
        invariant forall id :: id in table <==> id in variants[..i]
        invariant forall id :: id in table ==> table[id] == None
      {
        table := table[variants[i] := None];
        assert variants[..i + 1] == variants[..i] + [variants[i]];
      }
      assert variants[..|variants|] == variants;
      cells := table;
    }

    /** `get(&id).unwrap().get_or_init(|| load(&id))`. */
    method Get(id: K) returns (v: V)
      requires Valid()
      modifies this
      ensures Valid()
      ensures v == load(id)
      ensures cells == old(cells)[id := Some(v)]
      ensures old(cells[id]).Some? ==> v == old(cells[id].value) && loads == old(loads)
      ensures old(cells[id]).None? ==> loads == old(loads) + [id]
    {
      match cells[id]
      case Some(cached) =>
        v := cached;
        assert cells == cells[id := Some(v)];
      case None =>
        v := load(id);
        cells := cells[id := Some(v)];
        loads := loads + [id];
    }
  }

  class ResourcePool<I(==, !new), A(==, !new), F(==, !new)> {
    const images: OnceTable<I, Image>
    const audios: OnceTable<A, Audio>
    const fonts: OnceTable<F, Font>

    ghost predicate Valid()
      reads this, images, audios, fonts
    {
      images.Valid() && audios.Valid() && fonts.Valid()
    }

    constructor (
      imageIds: seq<I>, audioIds: seq<A>, fontIds: seq<F>,
      loadImage: I -> Image, loadAudio: A -> Audio, loadFont: F -> Font)
      requires forall id: I :: id in imageIds
      requires forall id: A :: id in audioIds
      requires forall id: F :: id in fontIds
      ensures Valid() && fresh(images) && fresh(audios) && fresh(fonts)
      ensures images.load == loadImage && audios.load == loadAudio && fonts.load == loadFont
      ensures images.loads == [] && audios.loads == [] && fonts.loads == []
      ensures forall id :: id in images.cells ==> images.cells[id] == None
      ensures forall id :: id in audios.cells ==> audios.cells[id] == None
      ensures forall id :: id in fonts.cells ==> fonts.cells[id] == None
    {
      images := new OnceTable(imageIds, loadImage);
      audios := new OnceTable(audioIds, loadAudio);
      fonts := new OnceTable(fontIds, loadFont);
    }

    method GetImage(id: I) returns (image: Image)
      requires Valid()
      modifies images
      ensures Valid()
      ensures image == images.load(id)
      ensures images.cells == old(images.cells)[id := Some(image)]
      ensures old(images.cells[id]).Some? ==> image == old(images.cells[id].value) && images.loads == old(images.loads)
      ensures old(images.cells[id]).None? ==> images.loads == old(images.loads) + [id]
    {
      image := images.Get(id);
    }

    method GetAudio(id: A) returns (audio: Audio)
      requires Valid()
      modifies audios
      ensures Valid()
      ensures audio == audios.load(id)
      ensures audios.cells == old(audios.cells)[id := Some(audio)]
      ensures old(audios.cells[id]).Some? ==> audio == old(audios.cells[id].value) && audios.loads == old(audios.loads)
      ensures old(audios.cells[id]).None? ==> audios.loads == old(audios.loads) + [id]
    {
      audio := audios.Get(id);
    }

    method GetFont(id: F) returns (font: Font)
      requires Valid()
      modifies fonts
      ensures Valid()
      ensures font == fonts.load(id)
      ensures fonts.cells == old(fonts.cells)[id := Some(font)]
      ensures old(fonts.cells[id]).Some? ==> font == old(fonts.cells[id].value) && fonts.loads == old(fonts.loads)
      ensures old(fonts.cells[id]).None? ==> fonts.loads == old(fonts.loads) + [id]
    {
      font := fonts.Get(id);
    }
  }

  /**
   * Two gets of the same image: the loader runs once, both return the same
   * asset, and the audio and font tables are untouched.
   */
  method LoaderRunsOncePerId<I(==, !new), A(==, !new), F(==, !new)>(pool: ResourcePool<I, A, F>, id: I)
    returns (first: Image, second: Image)
    requires pool.Valid() && pool.images.cells[id] == None
    modifies pool.images
    ensures first == second
    ensures pool.images.loads == old(pool.images.loads) + [id]
    ensures pool.audios.cells == old(pool.audios.cells) && pool.fonts.cells == old(pool.fonts.cells)
  {
    first := pool.GetImage(id);
    second := pool.GetImage(id);
  }
}
