/**
 * serializers.py: the complaint serializer's validation, its update of a
 * stored complaint and its media, and the date field's output.
 */
module Serializers {
  import opened Optional
  import opened Dates
  import opened Values
  import opened Records

  // ---------------------------------------------------------------------
  // CustomDateField.to_representation (lines 9-13)

  /** What the field renders: JSON null, a string, or an AttributeError. */
  datatype DateOutput = NullOutput | TextOutput(text: string) | OutputFails

  /**
   * A datetime is first reduced to its date; then the date field renders
   * falsy values as null, strings as they are, and dates with the field's
   * "%Y-%m-%d" format.
   */
  function DateRepresentation(v: Value): (r: DateOutput)
    ensures r == NullOutput <==> !Truthy(v)
    ensures (v.DateValue? || v.DateTimeValue?) ==> r == TextOutput(FormatYmd(v.date))
    ensures v.Str? && v.text != "" ==> r == TextOutput(v.text)
    ensures v.Int? && v.num != 0 ==> r == OutputFails
  {
    var d := if v.DateTimeValue? then DateValue(v.date) else v;
    if !Truthy(d) then NullOutput
    else
      match d
      case Str(t) => TextOutput(t)
      case DateValue(date) => TextOutput(FormatYmd(date))
      case _ => OutputFails
  }

  /** The rendered date is accepted back by the field's input format. */
  lemma DateRepresentationParses(v: Value)
    requires (v.DateValue? || v.DateTimeValue?) && ValidDate(v.date)
    ensures DateRepresentation(v).TextOutput?
    ensures ParseYmd(DateRepresentation(v).text) == Some(v.date)
  {
    ParseFormat(v.date);
  }

  // ---------------------------------------------------------------------
  // RailSathiComplainSerializer.validate (lines 42-75)

  /** The `train` entry: absent or null, a `TrainDetails` row, or some other truthy value. */
  datatype TrainArg = NoTrain | TrainGiven(train: TrainRecord) | NotATrain

  /** `TrainDetails.objects.get(train_no=...)`: one row, none, or several (which raises). */
  datatype TrainLookup = Found(train: TrainRecord) | NotFound | Ambiguous

  /** The serializer's `data`: the plain fields, `train`, and the nested media list. */
  datatype ComplaintData = ComplaintData(
    fields: map<string, Value>,
    train: TrainArg,
    mediaFiles: Option<seq<map<string, Value>>>)

  /** `LookupRaised`: MultipleObjectsReturned escapes `validate`. */
  datatype Validation = Validated(data: ComplaintData) | Rejected(message: string) | LookupRaised

  const NotATrainMessage := "If 'train' is provided, it must be a TrainDetails instance."
  const MissingTrainMessage :=
    "If no 'train' PK is provided, both 'train_number' and 'train_name' must be set."
  const ImageCapMessage := "A maximum of 10 images is allowed per complain."
  const MaxImages := 10

  predicate IsImage(attrs: map<string, Value>) {
    Get(attrs, "media_type", NoneValue) == Str("image")
  }

  /** Line 72: how many of the requested media items are images. */
  function ImageItems(items: seq<map<string, Value>>): (n: nat)
    ensures n <= |items|
  {
    if items == [] then 0 else (if IsImage(items[0]) then 1 else 0) + ImageItems(items[1..])
  }

  function TrainNumber(data: ComplaintData): Value { Get(data.fields, "train_number", NoneValue) }
  function TrainName(data: ComplaintData): Value { Get(data.fields, "train_name", NoneValue) }

  /** The train checks pass: a train row is given, or both names are set and the lookup does not raise. */
  predicate TrainAccepted(data: ComplaintData, lookup: TrainLookup) {
    data.train.TrainGiven? ||
    (data.train.NoTrain? && Truthy(TrainNumber(data)) && Truthy(TrainName(data)) && !lookup.Ambiguous?)
  }

  function Validate(data: ComplaintData, creating: bool, lookup: TrainLookup): (r: Validation)
    ensures data.train.NotATrain? ==> r == Rejected(NotATrainMessage)
    ensures data.train.NoTrain? && !(Truthy(TrainNumber(data)) && Truthy(TrainName(data))) ==>
      r == Rejected(MissingTrainMessage)
    ensures data.train.NoTrain? && Truthy(TrainNumber(data)) && Truthy(TrainName(data)) && lookup.Ambiguous? ==>
      r == LookupRaised
    ensures r == Rejected(ImageCapMessage) <==>
      TrainAccepted(data, lookup) && creating && ImageItems(data.mediaFiles.GetOr([])) > MaxImages
    ensures r.Validated? <==>
      TrainAccepted(data, lookup) && !(creating && ImageItems(data.mediaFiles.GetOr([])) > MaxImages)
    ensures r.Validated? ==> r.data.mediaFiles == data.mediaFiles
    ensures r.Validated? && data.train.TrainGiven? ==>
      r.data.train == data.train &&
      r.data.fields == data.fields["train_number" := data.train.train.trainNo]["train_name" := data.train.train.trainName]
    ensures r.Validated? && data.train.NoTrain? ==>
      r.data.fields == data.fields &&
      r.data.train == (if lookup.Found? then TrainGiven(lookup.train) else NoTrain)
  {
    var checked :=
      match data.train
      case NotATrain => Rejected(NotATrainMessage)
      case TrainGiven(t) =>
        Validated(data.(fields := data.fields["train_number" := t.trainNo]["train_name" := t.trainName]))
      case NoTrain =>
        if !Truthy(TrainNumber(data)) || !Truthy(TrainName(data)) then Rejected(MissingTrainMessage)
        else
          match lookup
          case Found(t) => Validated(data.(train := TrainGiven(t)))
          case NotFound => Validated(data)
          case Ambiguous => LookupRaised;
    if checked.Validated? && creating && ImageItems(data.mediaFiles.GetOr([])) > MaxImages then
      Rejected(ImageCapMessage)
    else checked
  }

  /** Validating data that came out of validation with a train row changes nothing. */
  lemma RevalidateTrainGiven(data: ComplaintData, creating: bool, lookup: TrainLookup, lookup': TrainLookup)
    requires data.train.TrainGiven? && Validate(data, creating, lookup).Validated?
    ensures Validate(Validate(data, creating, lookup).data, creating, lookup') == Validate(data, creating, lookup)
  {
    var t := data.train.train;
    var f := data.fields["train_number" := t.trainNo]["train_name" := t.trainName];
    assert f["train_number" := t.trainNo]["train_name" := t.trainName] == f;
  }

  // ---------------------------------------------------------------------
  // RailSathiComplainSerializer.create (lines 77-83)

  /** The columns of `RailSathiComplain` (models.py:19-42): the keyword
      arguments `objects.create` accepts. */
  const ModelColumns: set<string> := {
    "complain_id", "pnr_number", "is_pnr_validated", "name", "mobile_number", "complain_type",
    "complain_description", "complain_date", "complain_status", "train", "train_number", "train_name",
    "coach", "berth_no", "created_at", "created_by", "updated_at", "updated_by"}

  /** The write-only list field of lines 31-33, which is not a column. */
  const DeletedIdsKey := "deleted_media_ids"

  /** The plain fields validated data may carry: the columns and the write-only list. */
  const WritableFields: set<string> := ModelColumns + {DeletedIdsKey}

  /** The complaint row inserted, or the TypeError `objects.create` raises for an unknown keyword. */
  datatype CreateOutcome = Inserted(fields: map<string, Value>) | CreateRaised

  /**
   * Lines 77-79 as written: only the media list is popped, so every other
   * validated field (the train row travels separately) becomes a keyword
   * argument of `objects.create`, which raises unless each names a column.
   */
  function CreateAsWritten(data: ComplaintData): (r: CreateOutcome)
    ensures r.Inserted? <==> data.fields.Keys <= ModelColumns
    ensures r.Inserted? ==> r.fields == data.fields
  {
    if data.fields.Keys <= ModelColumns then Inserted(data.fields) else CreateRaised
  }

  /** `create` as `update` (line 88) treats the list: `deleted_media_ids` popped before the insert. */
  function Create(data: ComplaintData): (r: CreateOutcome)
    ensures r.Inserted? ==> DeletedIdsKey !in r.fields && r.fields.Keys <= ModelColumns
    ensures data.fields.Keys <= WritableFields ==> r == Inserted(data.fields - {DeletedIdsKey})
  {
    CreateAsWritten(data.(fields := data.fields - {DeletedIdsKey}))
  }

  /** Without the list the two agree. */
  lemma CreateAgreesWithoutDeletedIds(data: ComplaintData)
    requires DeletedIdsKey !in data.fields
    ensures Create(data) == CreateAsWritten(data)
  {
    assert data.fields - {DeletedIdsKey} == data.fields;
  }

  /** With the list, the code as written raises where the intended `create` inserts the row. */
  lemma DeletedIdsBreakCreate(data: ComplaintData)
    requires DeletedIdsKey in data.fields && data.fields.Keys <= WritableFields
    ensures CreateAsWritten(data) == CreateRaised
    ensures Create(data) == Inserted(data.fields - {DeletedIdsKey})
  {
    assert DeletedIdsKey !in ModelColumns;
  }

  // ---------------------------------------------------------------------
  // RailSathiComplainSerializer.update (lines 85-124)

  /** A stored media row: its primary key and its other columns. */
  datatype Media = Media(id: int, attrs: map<string, Value>)

  /** One entry of `rail_sathi_complain_media_files` in an update. */
  datatype MediaItem = MediaItem(id: Option<nat>, attrs: map<string, Value>)

  /** A complaint's media rows and the next value of the media id sequence. */
  datatype Store = Store(media: seq<Media>, nextId: int)

  /** Ids are distinct serial values below the sequence's next value. */
  predicate StoreValid(s: Store) {
    1 <= s.nextId &&
    (forall i, j :: 0 <= i < j < |s.media| ==> s.media[i].id != s.media[j].id) &&
    (forall i :: 0 <= i < |s.media| ==> 1 <= s.media[i].id < s.nextId)
  }

  /** `filter(id__in=ids).delete()`: the rows left. */
  function Without(media: seq<Media>, ids: seq<int>): (r: seq<Media>)
    ensures forall m :: m in r <==> m in media && m.id !in ids
    ensures |r| == |media| <==> forall i :: 0 <= i < |media| ==> media[i].id !in ids
    ensures |r| <= |media|
  {
    if media == [] then []
    else (if media[0].id in ids then [] else [media[0]]) + Without(media[1..], ids)
  }

  /** Where `get(id=...)` finds the row, or -1 (DoesNotExist). */
  function Find(media: seq<Media>, id: int): (k: int)
    ensures -1 <= k < |media|
    ensures k >= 0 ==> media[k].id == id
    ensures k == -1 <==> forall i :: 0 <= i < |media| ==> media[i].id != id
  {
    if media == [] then -1
    else if media[0].id == id then 0
    else
      var k := Find(media[1..], id);
      if k == -1 then -1 else k + 1
  }

  function Max(a: int, b: int): int { if a < b then b else a }

  /**
   * Lines 103-116 for one item: a truthy id that names a row overwrites
   * that row's columns with the item's; any other item creates a row,
   * under the id it names or else under the next serial value.
   */
  function MergeItem(s: Store, item: MediaItem): Store {
    if item.id.Some? && item.id.value != 0 then
      var id := item.id.value;
      var k := Find(s.media, id);
      if k >= 0 then s.(media := s.media[k := Media(id, s.media[k].attrs + item.attrs)])
      else Store(s.media + [Media(id, item.attrs)], Max(s.nextId, id + 1))
    else Store(s.media + [Media(s.nextId, item.attrs)], s.nextId + 1)
  }

  function MergeAll(s: Store, items: seq<MediaItem>): Store
    decreases |items|
  {
    if items == [] then s else MergeItem(MergeAll(s, items[..|items| - 1]), items[|items| - 1])
  }

  /** The media after deletion and merge, before the image count is checked. */
  function Staged(s: Store, mediaData: Option<seq<MediaItem>>, deletedIds: seq<int>): Store {
    MergeAll(Store(Without(s.media, deletedIds), s.nextId), mediaData.GetOr([]))
  }

  /** Lines 118-119: the complaint's image rows. */
  function MediaImages(media: seq<Media>): (n: nat)
    ensures n <= |media|
  {
    if media == [] then 0 else (if IsImage(media[0].attrs) then 1 else 0) + MediaImages(media[1..])
  }

  lemma TailValid(s: Store)
    requires StoreValid(s) && s.media != []
    ensures StoreValid(Store(s.media[1..], s.nextId))
    ensures forall m :: m in s.media[1..] ==> m.id != s.media[0].id
  {
    var t := s.media[1..];
    assert forall i :: 0 <= i < |t| ==> t[i] == s.media[i + 1];
  }

  lemma ConsValid(h: Media, r: seq<Media>, n: int)
    requires StoreValid(Store(r, n)) && 1 <= h.id < n
    requires forall m :: m in r ==> m.id != h.id
    ensures StoreValid(Store([h] + r, n))
  {
    var c := [h] + r;
    forall i, j | 0 <= i < j < |c| ensures c[i].id != c[j].id {
      assert c[j] == r[j - 1] && r[j - 1] in r;
      if i > 0 {
        assert c[i] == r[i - 1];
      }
    }
    forall i | 0 <= i < |c| ensures 1 <= c[i].id < n {
      if i > 0 {
        assert c[i] == r[i - 1];
      }
    }
  }

  lemma {:induction false} WithoutValid(s: Store, ids: seq<int>)
    requires StoreValid(s)
    ensures StoreValid(Store(Without(s.media, ids), s.nextId))
    decreases |s.media|
  {
    if s.media != [] {
      var h, t := s.media[0], s.media[1..];
      TailValid(s);
      WithoutValid(Store(t, s.nextId), ids);
      if h.id !in ids {
        ConsValid(h, Without(t, ids), s.nextId);
      }
    }
  }

  lemma MergeItemValid(s: Store, item: MediaItem)
    requires StoreValid(s)
    ensures StoreValid(MergeItem(s, item)) && MergeItem(s, item).nextId >= s.nextId
  {
    var r := MergeItem(s, item);
    if item.id.Some? && item.id.value != 0 {
      var id := item.id.value;
      var k := Find(s.media, id);
      if k < 0 {
        assert r.media == s.media + [Media(id, item.attrs)];
        assert forall i :: 0 <= i < |s.media| ==> r.media[i] == s.media[i];
      }
    } else {
      assert r.media == s.media + [Media(s.nextId, item.attrs)];
      assert forall i :: 0 <= i < |s.media| ==> r.media[i] == s.media[i];
    }
  }

  /** Raising the sequence's next value keeps a store valid. */
  lemma RaiseNextId(s: Store, n: int)
    requires StoreValid(s) && n >= s.nextId
    ensures StoreValid(s.(nextId := n))
  {
  }

  lemma {:induction false} MergeAllValid(s: Store, items: seq<MediaItem>)
    requires StoreValid(s)
    ensures StoreValid(MergeAll(s, items)) && MergeAll(s, items).nextId >= s.nextId
    decreases |items|
  {
    if items != [] {
      MergeAllValid(s, items[..|items| - 1]);
      MergeItemValid(MergeAll(s, items[..|items| - 1]), items[|items| - 1]);
    }
  }

  /** No item of `items` names this id. */
  predicate Unnamed(id: int, items: seq<MediaItem>) {
    forall j :: 0 <= j < |items| ==> items[j].id != Some(id)
  }

  /** The merge leaves every row no item names exactly where and as it was. */
  lemma {:induction false} MergeAllFrame(s: Store, items: seq<MediaItem>, i: int)
    requires StoreValid(s) && 0 <= i < |s.media| && Unnamed(s.media[i].id, items)
    ensures i < |MergeAll(s, items).media| && MergeAll(s, items).media[i] == s.media[i]
    decreases |items|
  {
    if items != [] {
      var init := items[..|items| - 1];
      assert Unnamed(s.media[i].id, init) by {
        forall j | 0 <= j < |init| ensures init[j].id != Some(s.media[i].id) {
          assert init[j] == items[j];
        }
      }
      MergeAllFrame(s, init, i);
      assert items[|items| - 1].id != Some(s.media[i].id);
    }
  }

  /** An item whose id names a stored row overwrites exactly that row's columns. */
  lemma MatchedItemOverwrites(s: Store, item: MediaItem, k: int)
    requires StoreValid(s) && 0 <= k < |s.media| && item.id == Some(s.media[k].id)
    ensures MergeItem(s, item) ==
      s.(media := s.media[k := Media(s.media[k].id, s.media[k].attrs + item.attrs)])
  {
    var found := Find(s.media, s.media[k].id);
    assert found == k;
  }

  /** Any other item adds one row, under an id no stored row has. */
  lemma UnmatchedItemCreates(s: Store, item: MediaItem)
    requires StoreValid(s)
    requires item.id.None? || item.id == Some(0) || forall i :: 0 <= i < |s.media| ==> s.media[i].id != item.id.value
    ensures |MergeItem(s, item).media| == |s.media| + 1
    ensures MergeItem(s, item).media[..|s.media|] == s.media
    ensures MergeItem(s, item).media[|s.media|].attrs == item.attrs
    ensures forall i :: 0 <= i < |s.media| ==> s.media[i].id != MergeItem(s, item).media[|s.media|].id
  {
  }

  /** Deletion comes first: an item naming a deleted row recreates it with the item's columns only. */
  lemma DeletedThenNamed(s: Store, k: int, attrs: map<string, Value>)
    requires StoreValid(s) && 0 <= k < |s.media|
    ensures var id := s.media[k].id;
      Staged(s, Some([MediaItem(Some(id), attrs)]), [id]).media ==
        Without(s.media, [id]) + [Media(id, attrs)]
  {
    var id := s.media[k].id;
    var items := [MediaItem(Some(id), attrs)];
    assert items[..0] == [];
    var left := Without(s.media, [id]);
    assert forall i :: 0 <= i < |left| ==> left[i] in left;
    assert Find(left, id) == -1;
    assert MergeAll(Store(left, s.nextId), items) == MergeItem(Store(left, s.nextId), items[0]);
  }

  /** How an update ends: saved, or the ValidationError of line 121. */
  datatype SaveOutcome = Saved | TooManyImages

  /** A stored complaint with its media, as `update` changes it. */
  class Complaint {
    var fields: map<string, Value>
    var media: seq<Media>
    var nextId: int

    ghost predicate Valid()
      reads this
    {
      StoreValid(Store(media, nextId))
    }

    constructor (fields0: map<string, Value>, media0: seq<Media>, nextId0: int)
      requires StoreValid(Store(media0, nextId0))
      ensures Valid() && fields == fields0 && media == media0 && nextId == nextId0
    {
      fields := fields0;
      media := media0;
      nextId := nextId0;
    }

    /**
     * Lines 85-124: the plain fields are saved first and stay saved; the
     * deletion, the merge and the image check run in one transaction, so
     * too many images leave the media as they were (the id sequence,
     * as in a database, is not rolled back).
     */
    method Update(validated: map<string, Value>, mediaData: Option<seq<MediaItem>>, deletedIds: seq<int>)
      returns (outcome: SaveOutcome)
      requires Valid()
      modifies this
      ensures Valid()
      ensures fields == old(fields) + validated
      ensures var staged := Staged(Store(old(media), old(nextId)), mediaData, deletedIds);
        nextId == staged.nextId &&
        (outcome == Saved <==> MediaImages(staged.media) <= MaxImages) &&
        (outcome == Saved ==> media == staged.media) &&
        (outcome == TooManyImages ==> media == old(media))
    {
      fields := fields + validated;
      var start := Store(Without(media, deletedIds), nextId);
      WithoutValid(Store(media, nextId), deletedIds);
      var s := start;
      var items := mediaData.GetOr([]);
      var i := 0;
      while i < |items|
        invariant 0 <= i <= |items|
        invariant s == MergeAll(start, items[..i])
      {
        assert items[..i + 1][..i] == items[..i];
        s := MergeItem(s, items[i]);
        i := i + 1;
      }
      assert items[..i] == items;
      assert s == Staged(Store(media, nextId), mediaData, deletedIds);
      MergeAllValid(start, items);
      RaiseNextId(Store(media, nextId), s.nextId);
      nextId := s.nextId;
      if MediaImages(s.media) > MaxImages {
        outcome := TooManyImages;
      } else {
        media := s.media;
        outcome := Saved;
      }
    }

    /** `media_files.filter(id__in=ids).delete()`, returning the number of rows removed. */
    method DeleteMedia(ids: seq<int>) returns (count: nat)
      requires Valid()
      modifies this
      ensures Valid() && fields == old(fields) && nextId == old(nextId)
      ensures media == Without(old(media), ids)
      ensures count == |old(media)| - |media|
      ensures count == 0 <==> forall i :: 0 <= i < |old(media)| ==> old(media)[i].id !in ids
    {
      WithoutValid(Store(media, nextId), ids);
      var left := Without(media, ids);
      count := |media| - |left|;
      media := left;
    }
  }
}
