/**
 * The account badge of the page header: a connected account is shown
 * abbreviated to its first six and last four characters, an absent one
 * (the empty string, which JavaScript treats as false) as a
 * "Connect Wallet" button.
 */
module Header {
  import opened JsString

  datatype AccountBadge = ConnectWallet | Abbreviated(text: string)

  const Ellipsis: string := "..."

  /** `account.substring(0, 6) + "..." + account.substring(account.length - 4)`, or the button. */
  function Badge(account: string): (b: AccountBadge)
    ensures b.ConnectWallet? <==> account == ""
    ensures b.Abbreviated? ==>
      var n := |account|;
      && |b.text| == Min(6, n) + |Ellipsis| + Min(4, n)
      && b.text[..Min(6, n)] == account[..Min(6, n)]
      && b.text[Min(6, n)..Min(6, n) + |Ellipsis|] == Ellipsis
      && b.text[|b.text| - Min(4, n)..] == account[n - Min(4, n)..]
  {
    if account == "" then ConnectWallet
    else
      var head := Substring(account, 0, 6);
      var tail := SubstringFrom(account, |account| - 4);
      SubstringPrefix(account, 6);
      SubstringSuffix(account, 4);
      Abbreviated(head + Ellipsis + tail)
  }

  /** An account of ten characters or more is shown in exactly thirteen. */
  lemma LongAccountBadge(account: string)
    requires |account| >= 10
    ensures Badge(account) == Abbreviated(account[..6] + Ellipsis + account[|account| - 4..])
    ensures |Badge(account).text| == 13
  {
    var t := Badge(account).text;
    assert t == t[..6] + t[6..9] + t[9..];
  }

  /**
   * Below four characters `length - 4` is negative, `substring` clamps it
   * to 0 and the tail is the whole account (and so is the head).
   */
  lemma ShortAccountBadge(account: string)
    requires 0 < |account| < 4
    ensures Badge(account) == Abbreviated(account + Ellipsis + account)
  {
    SubstringPrefix(account, 6);
    SubstringSuffix(account, 4);
  }
}
