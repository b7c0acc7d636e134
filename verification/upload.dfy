/**
  The image upload validator of the add-menu dialog (`beforeUpload`).

  A selected file is acceptable when its MIME type is JPEG or PNG and it is
  smaller than 2 MiB. The two rules are checked one after the other and each
  failing rule raises its own error message, so a file may be refused with one
  or with both messages. The message popup is modelled as the list of messages
  returned next to the verdict.
 */
module UploadValidator {

  /** A file picked by the user: its declared MIME type and its size in bytes. */
  datatype SelectedFile = SelectedFile(mimeType: string, size: nat)

  /**
    The two error messages the validator can raise: "You can only upload
    JPG/PNG file!" and "Image must be smaller than 2MB!".
   */
  datatype Msg = WrongType | TooLarge

  /** The verdict of the validator and the messages it raised, in order. */
  datatype Verdict = Verdict(accepted: bool, messages: seq<Msg>)

  const JpegType: string := "image/jpeg"
  const PngType: string := "image/png"

  /** 2 MiB in bytes, the size limit (exclusive). */
  const TwoMiB: nat := 2 * 1024 * 1024

  /** The type rule: the MIME type is exactly one of the two accepted ones. */
  predicate IsJpgOrPng(mimeType: string)
  {
    mimeType == JpegType || mimeType == PngType
  }

  /**
    The size rule as the source writes it: the size in bytes divided by 1024
    twice is below 2. The source divides JavaScript numbers; a file size is an
    integer and 1024 is a power of two, so both divisions are exact and the
    real-number division here computes the same value.
   */
  predicate IsLt2M(size: nat)
  {
    (size as real) / 1024.0 / 1024.0 < 2.0
  }

  /** The size rule written with real division is the integer byte bound. */
  lemma Lt2MIsByteBound(size: nat)
    ensures IsLt2M(size) <==> size < TwoMiB
  {
  }

  /** The messages raised by the two rules, type rule first. */
  function RuleMessages(typeOk: bool, sizeOk: bool): seq<Msg>
  {
    (if typeOk then [] else [WrongType]) + (if sizeOk then [] else [TooLarge])
  }

  /**
    `beforeUpload`: both rules are evaluated regardless of each other; the
    file is accepted only when neither fires.
   */
  function BeforeUpload(mimeType: string, size: nat): (v: Verdict)
    ensures v.accepted <==> (mimeType == JpegType || mimeType == PngType) && size < TwoMiB
    ensures v.accepted <==> v.messages == []
    ensures WrongType in v.messages <==> !(mimeType == JpegType || mimeType == PngType)
    ensures TooLarge in v.messages <==> size >= TwoMiB
    ensures |v.messages| <= 2
    ensures |v.messages| == 2 ==> v.messages == [WrongType, TooLarge]
  {
    var isJpgOrPng := IsJpgOrPng(mimeType);
    var isLt2M := IsLt2M(size);
    Lt2MIsByteBound(size);
    Verdict(isJpgOrPng && isLt2M, RuleMessages(isJpgOrPng, isLt2M))
  }

  /** A JPEG or PNG file smaller than 2 MiB is accepted with no message. */
  lemma SmallImageAccepted(mimeType: string, size: nat)
    requires mimeType == JpegType || mimeType == PngType
    requires size < TwoMiB
    ensures BeforeUpload(mimeType, size) == Verdict(true, [])
  {
  }

  /** A JPEG or PNG file of 2 MiB or more is refused with only the size message. */
  lemma LargeImageOnlySizeMessage(mimeType: string, size: nat)
    requires mimeType == JpegType || mimeType == PngType
    requires size >= TwoMiB
    ensures BeforeUpload(mimeType, size) == Verdict(false, [TooLarge])
  {
  }

  /** A file under 2 MiB of another type is refused with only the type message. */
  lemma SmallOtherTypeOnlyTypeMessage(mimeType: string, size: nat)
    requires mimeType != JpegType && mimeType != PngType
    requires size < TwoMiB
    ensures BeforeUpload(mimeType, size) == Verdict(false, [WrongType])
  {
  }

  /** A file failing both rules gets both messages, the type message first. */
  lemma BothRulesFailBothMessages(mimeType: string, size: nat)
    requires mimeType != JpegType && mimeType != PngType
    requires size >= TwoMiB
    ensures BeforeUpload(mimeType, size) == Verdict(false, [WrongType, TooLarge])
  {
  }

  /** The validator raises exactly one message per failing rule. */
  lemma MessageCountMatchesFailingRules(mimeType: string, size: nat)
    ensures |BeforeUpload(mimeType, size).messages|
         == (if IsJpgOrPng(mimeType) then 0 else 1) + (if size < TwoMiB then 0 else 1)
  {
  }
}
