/** parseContactData: sorting the contact links of a profile into an email
    address and a profile URL. */
module Contacts {
  import opened Wrappers
  import opened JsStrings

  /** The contact object; a field the links never set stays absent. */
  datatype Contact = Contact(email: Option<string>, url: Option<string>)

  /** A link to the profile itself. */
  predicate IsProfileLink(link: string) {
    Contains(link, "linkedin")
  }

  /** A link read as an email address: one with an "@" that is not a profile link. */
  predicate IsEmailLink(link: string) {
    !IsProfileLink(link) && Contains(link, "@")
  }

  /** The address of an email link: the link with its first "mailto:" removed. */
  function EmailOf(link: string): string {
    ReplaceFirst(link, "mailto:", "")
  }

  /** The contact after the links have been read in order: a later link of a
      kind overwrites an earlier one. */
  function ContactOf(links: seq<string>): (r: Contact)
    ensures r.url.Some? ==> r.url.value in links && IsProfileLink(r.url.value)
    decreases |links|
  {
    if links == [] then Contact(None, None)
    else
      var c, link := ContactOf(links[..|links| - 1]), links[|links| - 1];
      if IsProfileLink(link) then c.(url := Some(link))
      else if IsEmailLink(link) then c.(email := Some(EmailOf(link)))
      else c
  }

  /** parseContactData: one pass over the links. */
  method ParseContactData(anchorLinks: seq<string>) returns (contact: Contact)
    ensures contact == ContactOf(anchorLinks)
  {
    contact := Contact(None, None);
    var i := 0;
    while i < |anchorLinks|
      invariant 0 <= i <= |anchorLinks|
      invariant contact == ContactOf(anchorLinks[..i])
    {
      var link := anchorLinks[i];
      assert anchorLinks[..i + 1][..i] == anchorLinks[..i];
      if Contains(link, "linkedin") {
        contact := contact.(url := Some(link));
      } else if Contains(link, "@") {
        contact := contact.(email := Some(ReplaceFirst(link, "mailto:", "")));
      }
      i := i + 1;
    }
    assert anchorLinks[..i] == anchorLinks;
  }

  /** Position `i` holds the last profile link. */
  predicate LastProfileLinkAt(links: seq<string>, i: int) {
    0 <= i < |links| && IsProfileLink(links[i]) &&
    forall j :: i < j < |links| ==> !IsProfileLink(links[j])
  }

  /** Position `i` holds the last email link. */
  predicate LastEmailLinkAt(links: seq<string>, i: int) {
    0 <= i < |links| && IsEmailLink(links[i]) &&
    forall j :: i < j < |links| ==> !IsEmailLink(links[j])
  }

  /** The URL is absent exactly when there is no profile link. */
  lemma {:induction false} UrlAbsent(links: seq<string>)
    ensures ContactOf(links).url.None? <==> forall i :: 0 <= i < |links| ==> !IsProfileLink(links[i])
    decreases |links|
  {
    if links != [] {
      var init, n := links[..|links| - 1], |links| - 1;
      UrlAbsent(init);
      assert forall i :: 0 <= i < n ==> init[i] == links[i];
    }
  }

  /** A present URL is the last profile link. */
  lemma {:induction false} UrlIsLastProfileLink(links: seq<string>)
    ensures ContactOf(links).url.Some? ==>
      exists i :: LastProfileLinkAt(links, i) && ContactOf(links).url.value == links[i]
    decreases |links|
  {
    if links != [] {
      var init, n := links[..|links| - 1], |links| - 1;
      UrlIsLastProfileLink(init);
      if IsProfileLink(links[n]) {
        assert LastProfileLinkAt(links, n);
      } else if ContactOf(init).url.Some? {
        var i :| LastProfileLinkAt(init, i) && ContactOf(init).url.value == init[i];
        assert links[i] == init[i];
        assert LastProfileLinkAt(links, i);
      }
    }
  }

  /** The email is absent exactly when there is no email link. */
  lemma {:induction false} EmailAbsent(links: seq<string>)
    ensures ContactOf(links).email.None? <==> forall i :: 0 <= i < |links| ==> !IsEmailLink(links[i])
    decreases |links|
  {
    if links != [] {
      var init, n := links[..|links| - 1], |links| - 1;
      EmailAbsent(init);
      assert forall i :: 0 <= i < n ==> init[i] == links[i];
    }
  }

  /** One more link changes the email only when it is an email link. */
  lemma EmailStep(links: seq<string>)
    requires links != []
    ensures var init, link := links[..|links| - 1], links[|links| - 1];
      ContactOf(links).email == if IsEmailLink(link) then Some(EmailOf(link)) else ContactOf(init).email
  {
  }

  /** A present email is the last email link without its "mailto:". */
  lemma {:induction false} EmailIsLastEmailLink(links: seq<string>)
    ensures ContactOf(links).email.Some? ==>
      exists i :: LastEmailLinkAt(links, i) && ContactOf(links).email.value == EmailOf(links[i])
    decreases |links|
  {
    if links != [] {
      var init, n := links[..|links| - 1], |links| - 1;
      EmailIsLastEmailLink(init);
      EmailStep(links);
      if IsEmailLink(links[n]) {
        assert LastEmailLinkAt(links, n);
      } else if ContactOf(init).email.Some? {
        var i :| LastEmailLinkAt(init, i) && ContactOf(init).email.value == EmailOf(init[i]);
        assert links[i] == init[i];
        assert LastEmailLinkAt(links, i);
      }
    }
  }

  /** Reading more links never loses a field: what is set stays set. */
  lemma {:induction false} ContactGrows(links: seq<string>, more: seq<string>)
    ensures ContactOf(links).url.Some? ==> ContactOf(links + more).url.Some?
    ensures ContactOf(links).email.Some? ==> ContactOf(links + more).email.Some?
    decreases |more|
  {
    if more != [] {
      var m := more[..|more| - 1];
      assert (links + more)[..|links + more| - 1] == links + m;
      ContactGrows(links, m);
    } else {
      assert links + more == links;
    }
  }

  /** A link with both "linkedin" and "@" sets the URL only. */
  lemma ProfileLinkWithAt(links: seq<string>, link: string)
    requires IsProfileLink(link)
    ensures ContactOf(links + [link]) == ContactOf(links).(url := Some(link))
  {
    assert (links + [link])[..|links|] == links;
  }

  /** A "mailto:" link to an address (without a "k", so it cannot name
      LinkedIn) is an email link and gives the address. */
  lemma MailtoLink(address: string)
    requires '@' in address && 'k' !in address
    ensures IsEmailLink("mailto:" + address) && EmailOf("mailto:" + address) == address
  {
    var mail := "mailto:" + address;
    assert 'k' !in mail by {
      assert 'k' !in "mailto:";
    }
    NotContainsMissingChar(mail, "linkedin", 3);
    assert '@' in mail by {
      assert mail[7..] == address;
    }
    ContainsChar(mail, '@');
    ReplaceFirstAtStart("mailto:", address);
  }

  /** A LinkedIn profile address is a profile link. */
  lemma LinkedInLink(handle: string)
    ensures IsProfileLink("https://www.linkedin.com/in/" + handle)
  {
    var profile := "https://www.linkedin.com/in/" + handle;
    assert profile == "https://www." + "linkedin" + (".com/in/" + handle);
    OccursBetween("https://www.", "linkedin", ".com/in/" + handle);
  }

  /** A "mailto:" link followed by a profile link gives both fields. */
  lemma ContactExample(address: string, handle: string)
    requires '@' in address && 'k' !in address
    ensures var mail, profile := "mailto:" + address, "https://www.linkedin.com/in/" + handle;
      ContactOf([mail, profile]) == Contact(Some(address), Some(profile))
  {
    var mail, profile := "mailto:" + address, "https://www.linkedin.com/in/" + handle;
    MailtoLink(address);
    LinkedInLink(handle);
    assert [mail, profile][..1] == [mail];
    assert [mail][..0] == [];
  }
}
