/** The envelope every metadata response shares: a root element whose `returncode` attribute
    says whether the call succeeded and whose `returndesc` attribute describes a failure; and
    the `entry` elements that carry `key`/`value` pairs as `value` attributes. */
module Envelope {
  import opened Common
  import opened Xml

  const SIGN_ON_FAILED := "ログイン失敗"

  /** The return-code test the three metadata calls share: `"10000"` or `"0"`; a missing
      code is a failure. */
  predicate IsSuccessCode(code: Option<string>)
  {
    code == Some("10000") || code == Some("0")
  }

  predicate Succeeded(root: Element)
  {
    IsSuccessCode(Attr(root, "returncode"))
  }

  /** The error listing and description report: `returndesc` as it is, possibly `null`. */
  function ReturnDesc(root: Element): Option<string>
  {
    Attr(root, "returndesc")
  }

  /** The error sign-on reports: `returndesc`, or a fixed message when it is missing or empty. */
  function SignOnError(root: Element): (msg: string)
    ensures Truthy(ReturnDesc(root)) ==> msg == ReturnDesc(root).value
    ensures !Truthy(ReturnDesc(root)) ==> msg == SIGN_ON_FAILED
    ensures msg != ""
  {
    OrElse(ReturnDesc(root), SIGN_ON_FAILED)
  }

  /** `entry.querySelector('key')?.getAttribute('value')`. */
  function EntryKey(entry: Element): Option<string>
  {
    DescendantAttr(entry, "key", "value")
  }

  /** `entry.querySelector('value')?.getAttribute('value')`. */
  function EntryValue(entry: Element): Option<string>
  {
    DescendantAttr(entry, "value", "value")
  }
}
