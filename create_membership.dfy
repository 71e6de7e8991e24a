/**
 * The create-membership page: the submit handler that checks the form,
 * uploads the cover image and the metadata, and asks the wallet to call
 * `createMembership` on the contract; the receipt handler that reads the
 * new membership's id from the confirmed transaction; and the sync call
 * that records the membership in the database.
 *
 * The uploads, the contract's environment variable, the receipt and the
 * sync response are parameters; the page records what it sent (uploads,
 * contract calls, scheduled and sent syncs) in fields of its own.
 */
module CreateMembership {
  import opened Common
  import opened Text
  import opened ContractEvents
  import opened MembershipsRoute
  import opened MembershipSyncRoute

  // ---------------------------------------------------------------------
  // Values
  // ---------------------------------------------------------------------

  datatype ToastKind = Success | Error | Info

  datatype Toast = Toast(message: string, kind: ToastKind)

  /**
   * The form. `price` and `expiryDuration` are number inputs: None when
   * the input is empty. `hasCoverImage` says whether a file is chosen.
   */
  datatype FormData = FormData(
    name: string,
    description: string,
    price: Option<real>,
    isRecurring: bool,
    expiryDuration: Option<int>,
    category: string,
    hasCoverImage: bool)

  /** The metadata document uploaded before the contract call. */
  datatype Metadata = Metadata(name: string, description: string, image: string, category: string)

  /** One upload the page sends. */
  datatype Upload = CoverImage | MetadataJson(metadata: Metadata)

  /** What one upload gives: a URI, a non-ok response, or a thrown error with its message. */
  datatype UploadResult = Uploaded(uri: string) | NotOk | UploadThrew(message: string)

  /** The arguments of one `createMembership` call, in order. */
  datatype ContractCall = ContractCall(price: int, isRecurring: bool, expiryDuration: int, metadataURI: string)

  /** A transaction receipt, with its logs decoded (None when decoding throws). */
  datatype Receipt = Receipt(logs: Option<seq<EventLog>>)

  /** What the sync request gives: ok, a non-ok response with the `error`
      field of its body (None when absent or unreadable), or a thrown error. */
  datatype SyncResult = SyncOk | SyncRefused(error: Option<string>) | SyncThrew

  const DefaultExpiry := 2592000
  const NameRequiredText := "Please enter a membership name"
  const DescriptionRequiredText := "Please enter a description"
  const PriceRequiredText := "Please enter a valid price"
  const ImageRetryText := "Failed to upload image. Please try again."
  const ImageFailedText := "Failed to upload image"
  const MetadataFailedText := "Failed to upload metadata"
  const CreateFailedText := "Failed to create membership. Please try again."
  const NotDeployedText := "Contract not deployed. Please deploy the contract first."
  const CreatingText := "⏳ Creating membership on blockchain... Please confirm the transaction in your wallet."
  const ConfirmedText := "Transaction confirmed! Syncing membership..."
  const SyncFailedText := "Failed to sync membership to database. Please try again."
  const SyncErrorText := "Error syncing membership. Please refresh and check your dashboard."
  const ContractAddressVar := "NEXT_PUBLIC_CONTRACT_ADDRESS"

  // ---------------------------------------------------------------------
  // handleSubmit
  // ---------------------------------------------------------------------

  /** The first validation failure, in the order the handler checks. */
  function ValidationError(form: FormData): (r: Option<string>)
    ensures r.Some? ==> r.value != ""
    ensures r.None? ==> form.price.Some? && form.price.value > 0.0
  {
    if Trim(form.name) == "" then Some(NameRequiredText)
    else if Trim(form.description) == "" then Some(DescriptionRequiredText)
    else if form.price.None? || form.price.value <= 0.0 then Some(PriceRequiredText)
    else None
  }

  /** The checks run in order — name, description, price — and the first
      failure is the one reported; a name or description of white space
      only counts as empty. */
  lemma ValidationOrder(form: FormData)
    ensures Trim(form.name) == "" ==> ValidationError(form) == Some("Please enter a membership name")
    ensures Trim(form.name) != "" && Trim(form.description) == "" ==>
      ValidationError(form) == Some("Please enter a description")
    ensures Trim(form.name) != "" && Trim(form.description) != "" ==>
      (ValidationError(form) == Some("Please enter a valid price") <==> form.price.None? || form.price.value <= 0.0)
    ensures ValidationError(form).None? <==>
      && (exists i :: 0 <= i < |form.name| && !IsSpace(form.name[i]))
      && (exists i :: 0 <= i < |form.description| && !IsSpace(form.description[i]))
      && form.price.Some? && form.price.value > 0.0
  {
    TrimEmptyIff(form.name);
    TrimEmptyIff(form.description);
  }

  /** A form that passes validation has a positive price. */
  lemma ValidPriceIsPositive(form: FormData)
    requires ValidationError(form).None?
    ensures form.price.Some? && form.price.value > 0.0
  {
  }

  /** `error.message || default` for the error the handler catches. */
  function CaughtMessage(message: string): (m: string)
    ensures m != ""
  {
    if message != "" then message else CreateFailedText
  }

  /** The caught message for a failed upload; `notOkText` is the error a non-ok response raises. */
  function UploadFailureText(r: UploadResult, notOkText: string): string
    requires !r.Uploaded? && notOkText != ""
  {
    if r.NotOk? then notOkText else CaughtMessage(r.message)
  }

  /** `BigInt(Math.floor(price * 1000000))`: the price in micro-units. */
  function PriceArg(price: real): int
  {
    (price * 1000000.0).Floor
  }

  /** The price argument is the whole number of micro-units in the price:
      never negative for a valid price, and 0 for a price under one
      micro-unit, which the form's validation lets through. */
  lemma PriceArgBounds(price: real)
    ensures (PriceArg(price) as real) <= price * 1000000.0 < (PriceArg(price) as real) + 1.0
    ensures price > 0.0 ==> PriceArg(price) >= 0
    ensures PriceArg(price) >= 1 <==> price >= 0.000001
  {
  }

  /** `isRecurring ? BigInt(expiryDuration) : BigInt(0)`; an empty input reads as 0. */
  function ExpiryArg(form: FormData): (e: int)
    ensures !form.isRecurring ==> e == 0
    ensures form.isRecurring && form.expiryDuration.Some? ==> e == form.expiryDuration.value
  {
    if form.isRecurring then (if form.expiryDuration.Some? then form.expiryDuration.value else 0) else 0
  }

  /** What one submit past the address check sends, and the toast it leaves. */
  datatype SubmitOutcome = SubmitOutcome(uploads: seq<Upload>, write: Option<ContractCall>, toast: Toast)

  /** The contract address the page reads: `NEXT_PUBLIC_CONTRACT_ADDRESS || ''`. */
  function ContractAddress(env: Env): string
  {
    StrOr(EnvGet(env, ContractAddressVar), "")
  }

  predicate ContractDeployed(env: Env)
  {
    ContractAddress(env) != "" && ContractAddress(env) != "0x0"
  }

  /**
   * The outcome of `handleSubmit` for a connected wallet: `cover` and
   * `meta` are what the cover-image and metadata uploads give, `env` the
   * environment the contract address is read from.
   */
  function Submit(form: FormData, env: Env, cover: UploadResult, meta: UploadResult): (r: SubmitOutcome)
    ensures r.write.Some? <==> r.toast.kind == Info
    ensures ValidationError(form).Some? <==> r.uploads == []
  {
    if ValidationError(form).Some? then
      SubmitOutcome([], None, Toast(ValidationError(form).value, Error))
    else
      AfterValidation(form, env, cover, meta)
  }

  /** A form that fails validation uploads nothing, writes nothing and shows the failure. */
  lemma SubmitRejected(form: FormData, env: Env, cover: UploadResult, meta: UploadResult)
    requires ValidationError(form).Some?
    ensures Submit(form, env, cover, meta) == SubmitOutcome([], None, Toast(ValidationError(form).value, Error))
  {
  }

  /** A form that passes validation goes on to the uploads. */
  lemma SubmitAccepted(form: FormData, env: Env, cover: UploadResult, meta: UploadResult)
    requires ValidationError(form).None?
    ensures form.price.Some? && Submit(form, env, cover, meta) == AfterValidation(form, env, cover, meta)
  {
  }

  /** The rest of a submit once the form passed validation: the cover-image
      upload when a file is chosen, then the remaining steps. */
  function AfterValidation(form: FormData, env: Env, cover: UploadResult, meta: UploadResult): (r: SubmitOutcome)
    requires form.price.Some?
    ensures 1 <= |r.uploads| <= 2 && (r.uploads[0] == CoverImage <==> form.hasCoverImage)
    ensures r.write.Some? <==> r.toast.kind == Info
    ensures r.write.Some? ==> |r.uploads| == (if form.hasCoverImage then 2 else 1)
  {
    if !form.hasCoverImage then
      AfterCover(form, "", env, meta)
    else if !cover.Uploaded? then
      SubmitOutcome([CoverImage], None, Toast(UploadFailureText(cover, ImageFailedText), Error))
    else
      var rest := AfterCover(form, cover.uri, env, meta);
      rest.(uploads := [CoverImage] + rest.uploads)
  }

  /** The rest of a submit once the cover image, if any, is at `coverURI`:
      the metadata upload, the contract check and the contract call. */
  function AfterCover(form: FormData, coverURI: string, env: Env, meta: UploadResult): (r: SubmitOutcome)
    requires form.price.Some?
    ensures r.uploads == [MetadataJson(Metadata(form.name, form.description, coverURI, form.category))]
    ensures r.write.Some? <==> meta.Uploaded? && ContractDeployed(env)
    ensures r.write.Some? <==> r.toast.kind == Info
    ensures r.write.Some? ==> r.write.value.metadataURI == meta.uri && r.write.value.isRecurring == form.isRecurring
  {
    var uploads := [MetadataJson(Metadata(form.name, form.description, coverURI, form.category))];
    if !meta.Uploaded? then
      SubmitOutcome(uploads, None, Toast(UploadFailureText(meta, MetadataFailedText), Error))
    else if !ContractDeployed(env) then
      SubmitOutcome(uploads, None, Toast(NotDeployedText, Error))
    else
      SubmitOutcome(uploads,
                    Some(ContractCall(PriceArg(form.price.value), form.isRecurring, ExpiryArg(form), meta.uri)),
                    Toast(CreatingText, Info))
  }

  /** A form that fails validation gets its first failure as an error toast,
      and nothing is uploaded or written. */
  lemma ValidationStopsSubmit(form: FormData, env: Env, cover: UploadResult, meta: UploadResult)
    requires ValidationError(form).Some?
    ensures var o := Submit(form, env, cover, meta);
      o.uploads == [] && o.write.None? && o.toast == Toast(ValidationError(form).value, Error)
  {
  }

  /** The contract is written only for a valid form, after both uploads
      succeed, with a deployed contract. */
  lemma WriteOnlyWhenAllPass(form: FormData, env: Env, cover: UploadResult, meta: UploadResult)
    ensures Submit(form, env, cover, meta).write.Some? <==>
      && ValidationError(form).None?
      && (form.hasCoverImage ==> cover.Uploaded?)
      && meta.Uploaded?
      && ContractDeployed(env)
  {
  }

  /** Without a deployed contract (address empty or "0x0") nothing is written
      and the page says so. */
  lemma NotDeployedNoWrite(form: FormData, env: Env, cover: UploadResult, meta: UploadResult)
    requires ValidationError(form).None? && (form.hasCoverImage ==> cover.Uploaded?) && meta.Uploaded?
    requires ContractAddress(env) in {"", "0x0"}
    ensures Submit(form, env, cover, meta).write.None?
    ensures Submit(form, env, cover, meta).toast == Toast("Contract not deployed. Please deploy the contract first.", Error)
  {
  }

  /** The contract call carries, in order, the price in micro-units, the
      recurring flag, the expiry (0 when not recurring) and the metadata URI;
      the metadata names the cover image's URI, or "" without a cover. */
  lemma ContractArguments(form: FormData, env: Env, cover: UploadResult, meta: UploadResult)
    requires Submit(form, env, cover, meta).write.Some?
    ensures var o := Submit(form, env, cover, meta);
      && form.price.Some? && form.price.value > 0.0
      && o.write.value == ContractCall(PriceArg(form.price.value), form.isRecurring,
                                       if form.isRecurring then ExpiryArg(form) else 0, meta.uri)
      && o.uploads[|o.uploads| - 1]
         == MetadataJson(Metadata(form.name, form.description,
                                  if form.hasCoverImage then cover.uri else "", form.category))
      && o.toast.kind == Info
  {
    WriteOnlyWhenAllPass(form, env, cover, meta);
    ValidPriceIsPositive(form);
    var coverURI := if form.hasCoverImage then cover.uri else "";
    SubmitPastCover(form, env, cover, meta);
    ContractCallOnce(form, coverURI, env, meta);
  }

  /** Past validation and the cover upload, a submit is the rest of the
      steps, after the cover upload when there is one. */
  lemma SubmitPastCover(form: FormData, env: Env, cover: UploadResult, meta: UploadResult)
    requires ValidationError(form).None? && (form.hasCoverImage ==> cover.Uploaded?)
    ensures form.price.Some?
    ensures var rest := AfterCover(form, if form.hasCoverImage then cover.uri else "", env, meta);
      Submit(form, env, cover, meta) == rest.(uploads := (if form.hasCoverImage then [CoverImage] else []) + rest.uploads)
  {
    if !form.hasCoverImage {
      assert [] + AfterCover(form, "", env, meta).uploads == AfterCover(form, "", env, meta).uploads;
    }
  }

  /** Once the cover is settled, a write carries the price, the recurring
      flag, the expiry and the metadata URI, after the one metadata upload. */
  lemma ContractCallOnce(form: FormData, coverURI: string, env: Env, meta: UploadResult)
    requires form.price.Some? && AfterCover(form, coverURI, env, meta).write.Some?
    ensures var o := AfterCover(form, coverURI, env, meta);
      && o.write.value == ContractCall(PriceArg(form.price.value), form.isRecurring, ExpiryArg(form), meta.uri)
      && o.uploads == [MetadataJson(Metadata(form.name, form.description, coverURI, form.category))]
      && o.toast.kind == Info
  {
  }

  /** A failed cover upload stops the submit before the metadata upload,
      with the error the upload raised. */
  lemma CoverFailureStops(form: FormData, env: Env, cover: UploadResult, meta: UploadResult)
    requires ValidationError(form).None? && form.hasCoverImage && !cover.Uploaded?
    ensures var o := Submit(form, env, cover, meta);
      && o.uploads == [CoverImage] && o.write.None?
      && o.toast.kind == Error
      && (cover.NotOk? ==> o.toast.message == "Failed to upload image")
  {
  }

  /** A failed metadata upload stops the submit with the error it raised. */
  lemma MetadataFailureStops(form: FormData, env: Env, cover: UploadResult, meta: UploadResult)
    requires ValidationError(form).None? && (form.hasCoverImage ==> cover.Uploaded?) && !meta.Uploaded?
    ensures var o := Submit(form, env, cover, meta);
      && o.write.None? && o.toast.kind == Error
      && (meta.NotOk? ==> o.toast.message == "Failed to upload metadata")
  {
  }

  /** The three checks of `handleSubmit`, in order, giving the message of
      the first that fails. */
  method CheckForm(form: FormData) returns (error: Option<string>)
    ensures error == ValidationError(form)
    ensures error.Some? ==> error.value in {NameRequiredText, DescriptionRequiredText, PriceRequiredText}
  {
    if Trim(form.name) == "" {
      return Some(NameRequiredText);
    }
    if Trim(form.description) == "" {
      return Some(DescriptionRequiredText);
    }
    if form.price.None? || form.price.value <= 0.0 {
      return Some(PriceRequiredText);
    }
    return None;
  }

  // ---------------------------------------------------------------------
  // The receipt effect and syncMembershipToDB
  // ---------------------------------------------------------------------

  /** The id the receipt effect schedules a sync for, if any: only a
      confirmed receipt, with a wallet, whose id is non-null and non-zero. */
  function ReceiptSync(isSuccess: bool, receipt: Option<Receipt>, address: Option<string>): (id: Option<int>)
    ensures id.Some? ==> id.value != 0 && isSuccess && receipt.Some? && StrTruthy(address)
    ensures id.Some? ==> ParseMembershipCreated(receipt.value.logs) == id
  {
    if isSuccess && receipt.Some? && StrTruthy(address) then
      var parsed := ParseMembershipCreated(receipt.value.logs);
      if parsed.Some? && parsed.value != 0 then parsed else None
    else None
  }

  /** A confirmed receipt whose logs give no id, or the id 0, schedules nothing. */
  lemma NoSyncWithoutId(receipt: Receipt, address: Option<string>)
    requires ParseMembershipCreated(receipt.logs) in {None, Some(0)}
    ensures ReceiptSync(true, Some(receipt), address).None?
  {
  }

  /** The body `syncMembershipToDB(id)` posts. */
  function SyncPayload(form: FormData, coverImagePreview: string, id: int, address: string): (b: MembershipBody)
    ensures !form.isRecurring ==> b.expiryDuration.None?
    ensures form.isRecurring ==> b.expiryDuration == form.expiryDuration
    ensures b.membershipId == Some(id) && b.creator == Some(address)
  {
    MembershipBody(Some(id), Some(address), Some(form.name), Some(form.description), form.price,
                   Some(form.isRecurring), if form.isRecurring then form.expiryDuration else None,
                   Some(coverImagePreview), None, Some(form.category), None)
  }

  /** The payload the page sends always passes the sync route's field check. */
  lemma SyncPayloadAccepted(form: FormData, preview: string, id: int, address: string)
    requires id != 0 && address != ""
    ensures HasSyncFields(SyncPayload(form, preview, id, address))
  {
  }

  /** The toast the sync result leaves. */
  function SyncToast(name: string, r: SyncResult): (t: Toast)
    ensures t.kind == Success <==> r.SyncOk?
  {
    match r
    case SyncOk => Toast("🎉 Membership \"" + name + "\" created successfully! Redirecting to dashboard...", Success)
    case SyncRefused(e) => Toast(StrOr(e, SyncFailedText), Error)
    case SyncThrew => Toast(SyncErrorText, Error)
  }

  // ---------------------------------------------------------------------
  // The page
  // ---------------------------------------------------------------------

  class CreateMembershipPage {
    var form: FormData
    var coverImagePreview: string
    var uploading: bool
    var membershipId: Option<int>
    var toast: Option<Toast>
    /** The uploads sent, oldest first. */
    var uploads: seq<Upload>
    /** The `createMembership` calls requested from the wallet, oldest first. */
    var writes: seq<ContractCall>
    /** The ids a sync has been scheduled for, oldest first. */
    var scheduledSyncs: seq<int>
    /** The sync bodies posted, oldest first. */
    var syncRequests: seq<MembershipBody>

    constructor()
      ensures form == FormData("", "", None, false, Some(DefaultExpiry), "", false)
      ensures coverImagePreview == "" && !uploading && membershipId.None? && toast.None?
      ensures uploads == [] && writes == [] && scheduledSyncs == [] && syncRequests == []
    {
      form := FormData("", "", None, false, Some(DefaultExpiry), "", false);
      coverImagePreview := "";
      uploading := false;
      membershipId := None;
      toast := None;
      uploads := [];
      writes := [];
      scheduledSyncs := [];
      syncRequests := [];
    }

    /** `handleImageUpload(file)`: the upload, its toast on failure, and the
        URI or the message of the error it rethrows. */
    method HandleImageUpload(result: UploadResult) returns (uri: string, failure: Option<string>)
      modifies this
      ensures uploads == old(uploads) + [CoverImage] && !uploading
      ensures result.Uploaded? ==> uri == result.uri && failure.None? && toast == old(toast)
      ensures !result.Uploaded? ==>
        && failure == Some(if result.NotOk? then ImageFailedText else result.message)
        && toast == Some(Toast(ImageRetryText, Error))
      ensures form == old(form) && coverImagePreview == old(coverImagePreview) && membershipId == old(membershipId)
      ensures writes == old(writes) && scheduledSyncs == old(scheduledSyncs) && syncRequests == old(syncRequests)
    {
      uploading := true;
      uploads := uploads + [CoverImage];
      uri := "";
      failure := None;
      match result {
        case Uploaded(u) =>
          uri := u;
        case NotOk =>
          toast := Some(Toast(ImageRetryText, Error));
          failure := Some(ImageFailedText);
        case UploadThrew(m) =>
          toast := Some(Toast(ImageRetryText, Error));
          failure := Some(m);
      }
      uploading := false;
    }

    /**
     * `handleSubmit` with the connected wallet `address`. Without one
     * nothing changes; otherwise the page records the uploads and the
     * contract call `Submit` describes and shows its toast.
     */
    method HandleSubmit(address: Option<string>, env: Env, cover: UploadResult, meta: UploadResult)
      modifies this
      ensures !StrTruthy(address) ==> unchanged(this)
      ensures StrTruthy(address) ==>
        var o := Submit(old(form), env, cover, meta);
        && uploads == old(uploads) + o.uploads
        && writes == old(writes) + (if o.write.Some? then [o.write.value] else [])
        && toast == Some(o.toast)
        && uploading == (if ValidationError(old(form)).Some? then old(uploading) else false)
      ensures form == old(form) && coverImagePreview == old(coverImagePreview) && membershipId == old(membershipId)
      ensures scheduledSyncs == old(scheduledSyncs) && syncRequests == old(syncRequests)
    {
      if !StrTruthy(address) {
        return;
      }
      SubmitConnected(env, cover, meta);
    }

    /** The part of `handleSubmit` once a wallet is connected: the form
        checks, then the uploads and the contract call. */
    method SubmitConnected(env: Env, cover: UploadResult, meta: UploadResult)
      modifies this
      ensures var o := Submit(old(form), env, cover, meta);
        && uploads == old(uploads) + o.uploads
        && writes == old(writes) + (if o.write.Some? then [o.write.value] else [])
        && toast == Some(o.toast)
        && uploading == (if ValidationError(old(form)).Some? then old(uploading) else false)
      ensures form == old(form) && coverImagePreview == old(coverImagePreview) && membershipId == old(membershipId)
      ensures scheduledSyncs == old(scheduledSyncs) && syncRequests == old(syncRequests)
    {
      ghost var f := form;
      var error := CheckForm(form);
      if error.Some? {
        SubmitRejected(f, env, cover, meta);
        toast := Some(Toast(error.value, Error));
        assert uploads == old(uploads) + [] && writes == old(writes) + [];
        return;
      }
      SubmitAccepted(f, env, cover, meta);
      SubmitValidated(env, cover, meta);
    }

    /** The part of `handleSubmit` after the form passed validation. */
    method SubmitValidated(env: Env, cover: UploadResult, meta: UploadResult)
      requires form.price.Some?
      modifies this
      ensures var o := AfterValidation(old(form), env, cover, meta);
        && uploads == old(uploads) + o.uploads
        && writes == old(writes) + (if o.write.Some? then [o.write.value] else [])
        && toast == Some(o.toast)
        && !uploading
      ensures form == old(form) && coverImagePreview == old(coverImagePreview) && membershipId == old(membershipId)
      ensures scheduledSyncs == old(scheduledSyncs) && syncRequests == old(syncRequests)
    {
      ghost var f := form;
      ghost var u0 := uploads;
      uploading := true;
      var coverImageURI := "";
      if form.hasCoverImage {
        var failure;
        coverImageURI, failure := HandleImageUpload(cover);
        if failure.Some? {
          toast := Some(Toast(CaughtMessage(failure.value), Error));
          uploading := false;
          return;
        }
      }
      ghost var u1 := uploads;
      FinishSubmit(coverImageURI, env, meta);
      ghost var o := AfterCover(f, coverImageURI, env, meta);
      assert uploads == u1 + o.uploads;
      if f.hasCoverImage {
        assert u1 == u0 + [CoverImage];
        assert uploads == u0 + ([CoverImage] + o.uploads);
      }
    }

    /** The metadata upload and the contract call, once the cover image is at `coverImageURI`. */
    method FinishSubmit(coverImageURI: string, env: Env, meta: UploadResult)
      requires form.price.Some?
      modifies this
      ensures var o := AfterCover(old(form), coverImageURI, env, meta);
        && uploads == old(uploads) + o.uploads
        && writes == old(writes) + (if o.write.Some? then [o.write.value] else [])
        && toast == Some(o.toast)
        && !uploading
      ensures form == old(form) && coverImagePreview == old(coverImagePreview) && membershipId == old(membershipId)
      ensures scheduledSyncs == old(scheduledSyncs) && syncRequests == old(syncRequests)
    {
      var metadata := Metadata(form.name, form.description, coverImageURI, form.category);
      uploads := uploads + [MetadataJson(metadata)];
      if !meta.Uploaded? {
        var message := if meta.NotOk? then MetadataFailedText else meta.message;
        toast := Some(Toast(CaughtMessage(message), Error));
        uploading := false;
        return;
      }
      var metadataURI := meta.uri;

      var contractAddress := StrOr(EnvGet(env, ContractAddressVar), "");
      if contractAddress == "" || contractAddress == "0x0" {
        toast := Some(Toast(NotDeployedText, Error));
        uploading := false;
        return;
      }

      var priceInUnits := (form.price.value * 1000000.0).Floor;
      var expiryDuration := if form.isRecurring then (if form.expiryDuration.Some? then form.expiryDuration.value else 0) else 0;
      toast := Some(Toast(CreatingText, Info));
      writes := writes + [ContractCall(priceInUnits, form.isRecurring, expiryDuration, metadataURI)];
      uploading := false;
    }

    /** The receipt effect: records the id and schedules its sync. */
    method OnReceipt(isSuccess: bool, receipt: Option<Receipt>, address: Option<string>)
      modifies this
      ensures var id := ReceiptSync(isSuccess, receipt, address);
        && (id.None? ==> unchanged(this))
        && (id.Some? ==>
              && membershipId == id
              && toast == Some(Toast(ConfirmedText, Info))
              && scheduledSyncs == old(scheduledSyncs) + [id.value])
      ensures form == old(form) && uploads == old(uploads) && writes == old(writes)
      ensures syncRequests == old(syncRequests) && uploading == old(uploading)
    {
      if isSuccess && receipt.Some? && StrTruthy(address) {
        var id := ParseMembershipCreated(receipt.value.logs);
        if id.Some? && id.value != 0 {
          membershipId := id;
          toast := Some(Toast(ConfirmedText, Info));
          scheduledSyncs := scheduledSyncs + [id.value];
        }
      }
    }

    /** `syncMembershipToDB(id)`: posts the form to the sync route and shows
        the result. */
    method SyncMembershipToDb(id: int, address: Option<string>, result: SyncResult)
      modifies this
      ensures id == 0 || !StrTruthy(address) ==> unchanged(this)
      ensures id != 0 && StrTruthy(address) ==>
        && syncRequests == old(syncRequests) + [SyncPayload(form, coverImagePreview, id, address.value)]
        && toast == Some(SyncToast(form.name, result))
      ensures form == old(form) && coverImagePreview == old(coverImagePreview) && uploads == old(uploads)
      ensures writes == old(writes) && scheduledSyncs == old(scheduledSyncs) && uploading == old(uploading)
      ensures membershipId == old(membershipId)
    {
      if id == 0 || !StrTruthy(address) {
        return;
      }
      var body := MembershipBody(Some(id), Some(address.value), Some(form.name), Some(form.description), form.price,
                                 Some(form.isRecurring), if form.isRecurring then form.expiryDuration else None,
                                 Some(coverImagePreview), None, Some(form.category), None);
      syncRequests := syncRequests + [body];
      match result {
        case SyncOk =>
          toast := Some(Toast("🎉 Membership \"" + form.name + "\" created successfully! Redirecting to dashboard...", Success));
        case SyncRefused(e) =>
          toast := Some(Toast(if StrTruthy(e) then e.value else SyncFailedText, Error));
        case SyncThrew =>
          toast := Some(Toast(SyncErrorText, Error));
      }
    }
  }
}
