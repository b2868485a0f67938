/**
 * `button_handler`'s decoding of a callback payload into the action it runs.
 * The four prefix tests come before the table lookups, in this order:
 * `config_`, `faq_`, `copy_`, `admin_remove_`.
 */
module Dispatch {
  import opened Wrappers
  import opened Text

  /** The fixed administrator identifier. */
  const AdminId: int := 754

  /** Python's `is_admin`: the administrator is the one fixed id. */
  predicate IsAdmin(userId: int): (b: bool)
    ensures b <==> userId == 754
  {
    userId == AdminId
  }

  /** The number of entries of the FAQ list. */
  const FaqCount: nat := 3

  /** The screens of the table that any user may open. */
  datatype Screen = Sublink | Servers | Tools | Clients | FaqMenu | Back | CopySublink | PingTest | DnsTest | IpInfo

  /** The screens of the table that only the administrator may open. */
  datatype AdminScreen = Panel | Stats | ListConfigs | AddConfig | RemoveConfigMenu | Broadcast | ExportUsers

  datatype Action =
    | ShowConfig(id: string)         // show_config: QR code of a catalog entry, or "not found"
    | ShowFaq(index: nat)            // show_faq_detail with an index in range
    | FaqNotFound(rejected: int)     // show_faq_detail rejecting the index
    | FaqUnparsable                  // int() raises: the update fails, nothing is shown
    | CopyConfig(id: string)         // copy_config_value: send the link, or "not found"
    | RemoveConfig(id: string)       // perform_remove_config
    | Denied                         // "access denied" notice
    | Open(screen: Screen)
    | OpenAdmin(adminScreen: AdminScreen)
    | Ignored                        // unknown payload: nothing happens

  /** The key under which each screen stands in the `handlers_simple` table. */
  function SimpleKey(s: Screen): string {
    match s
    case Sublink => "sublink"
    case Servers => "servers"
    case Tools => "tools"
    case Clients => "clients"
    case FaqMenu => "faq"
    case Back => "back"
    case CopySublink => "copy_sublink"
    case PingTest => "ping_test"
    case DnsTest => "dns_test"
    case IpInfo => "ip_info"
  }

  /** The `handlers_simple` table: each key names exactly one screen. */
  function SimpleHandler(key: string): (r: Option<Screen>)
    ensures r.Some? ==> SimpleKey(r.value) == key
  {
    if key == "sublink" then Some(Sublink)
    else if key == "servers" then Some(Servers)
    else if key == "tools" then Some(Tools)
    else if key == "clients" then Some(Clients)
    else if key == "faq" then Some(FaqMenu)
    else if key == "back" then Some(Back)
    else if key == "copy_sublink" then Some(CopySublink)
    else if key == "ping_test" then Some(PingTest)
    else if key == "dns_test" then Some(DnsTest)
    else if key == "ip_info" then Some(IpInfo)
    else None
  }

  /** The key under which each screen stands in the `handlers_need_context` table. */
  function AdminKey(s: AdminScreen): string {
    match s
    case Panel => "admin_panel"
    case Stats => "admin_stats"
    case ListConfigs => "admin_list_configs"
    case AddConfig => "admin_add_config"
    case RemoveConfigMenu => "admin_remove_config"
    case Broadcast => "admin_broadcast"
    case ExportUsers => "admin_export_users"
  }

  /** The `handlers_need_context` table: each key names exactly one screen. */
  function AdminHandler(key: string): (r: Option<AdminScreen>)
    ensures r.Some? ==> AdminKey(r.value) == key
  {
    if key == "admin_panel" then Some(Panel)
    else if key == "admin_stats" then Some(Stats)
    else if key == "admin_list_configs" then Some(ListConfigs)
    else if key == "admin_add_config" then Some(AddConfig)
    else if key == "admin_remove_config" then Some(RemoveConfigMenu)
    else if key == "admin_broadcast" then Some(Broadcast)
    else if key == "admin_export_users" then Some(ExportUsers)
    else None
  }

  /** `int(segment)` followed by `show_faq_detail`'s range check. */
  function FaqAction(segment: string, rules: CharRules): (a: Action)
    ensures a.ShowFaq? ==> a.index < FaqCount
    ensures a.FaqNotFound? ==> a.rejected < 0 || a.rejected >= FaqCount
    ensures a == FaqUnparsable <==> ParseInt(segment, rules.decimal).None?
    ensures ParseInt(segment, rules.decimal).Some? && 0 <= ParseInt(segment, rules.decimal).value < FaqCount ==>
      a == ShowFaq(ParseInt(segment, rules.decimal).value)
    ensures ParseInt(segment, rules.decimal).Some? && !(0 <= ParseInt(segment, rules.decimal).value < FaqCount) ==>
      a == FaqNotFound(ParseInt(segment, rules.decimal).value)
  {
    match ParseInt(segment, rules.decimal)
    case None => FaqUnparsable
    case Some(i) => if i < 0 || i >= FaqCount then FaqNotFound(i) else ShowFaq(i)
  }

  /** `data.split('_', 1)[1]` for a payload starting with `config_`: the id after the prefix. */
  function ConfigSuffix(payload: string): (id: string)
    requires "config_" <= payload
    ensures id == payload[7..]
  {
    AfterFirstOfPrefix(payload, "config_", '_', 6);
    AfterFirst(payload, '_')
  }

  /** `data.split('_', 1)[1]` for a payload starting with `copy_`. */
  function CopySuffix(payload: string): (id: string)
    requires "copy_" <= payload
    ensures id == payload[5..]
  {
    AfterFirstOfPrefix(payload, "copy_", '_', 4);
    AfterFirst(payload, '_')
  }

  /** `data.split('_', 2)[2]` for a payload starting with `admin_remove_`: the text after the second `_`. */
  function RemoveSuffix(payload: string): (id: string)
    requires "admin_remove_" <= payload
    ensures id == payload[13..]
  {
    AfterFirstOfPrefix(payload, "admin_remove_", '_', 5);
    var rest := AfterFirst(payload, '_');
    assert "remove_" <= rest by { assert rest == payload[6..]; }
    AfterFirstOfPrefix(rest, "remove_", '_', 6);
    AfterFirst(rest, '_')
  }

  /** `data.split('_')[1]` for a payload starting with `faq_`: the text after `faq_` up to the next `_`. */
  function FaqSegment(payload: string): (seg: string)
    requires "faq_" <= payload
    ensures seg == Split(payload[4..], '_')[0]
  {
    AfterFirstOfPrefix(payload, "faq_", '_', 3);
    Split(payload, '_')[1]
  }

  /** The four prefix tests of `button_handler`, in order; `None` when none matches. */
  function PrefixAction(payload: string, fromAdmin: bool, rules: CharRules): (a: Option<Action>)
    ensures "config_" <= payload ==> a == Some(ShowConfig(payload[7..]))
    ensures !("config_" <= payload) && "faq_" <= payload ==> a == Some(FaqAction(FaqSegment(payload), rules))
    ensures !("config_" <= payload) && !("faq_" <= payload) && "copy_" <= payload ==>
      a == Some(CopyConfig(payload[5..]))
    ensures !("config_" <= payload) && !("faq_" <= payload) && !("copy_" <= payload) && "admin_remove_" <= payload ==>
      a == Some(if fromAdmin then RemoveConfig(payload[13..]) else Denied)
    ensures a.Some? ==> !a.value.Open? && !a.value.OpenAdmin? && !a.value.Ignored?
    ensures a.None? <==> !("config_" <= payload) && !("faq_" <= payload) && !("copy_" <= payload) && !("admin_remove_" <= payload)
  {
    if "config_" <= payload then Some(ShowConfig(ConfigSuffix(payload)))
    else if "faq_" <= payload then Some(FaqAction(FaqSegment(payload), rules))
    else if "copy_" <= payload then Some(CopyConfig(CopySuffix(payload)))
    else if "admin_remove_" <= payload then
      if fromAdmin then Some(RemoveConfig(RemoveSuffix(payload))) else Some(Denied)
    else None
  }

  /** The two table lookups, the administrator table behind the identity check. */
  function TableAction(payload: string, fromAdmin: bool): (a: Action)
    ensures a.OpenAdmin? ==> fromAdmin && AdminHandler(payload) == Some(a.adminScreen)
    ensures a.Open? <==> SimpleHandler(payload).Some?
    ensures a.Open? ==> SimpleHandler(payload) == Some(a.screen)
    ensures SimpleHandler(payload).None? && AdminHandler(payload).Some? ==>
      a == if fromAdmin then OpenAdmin(AdminHandler(payload).value) else Denied
    ensures a == Ignored <==> SimpleHandler(payload).None? && AdminHandler(payload).None?
  {
    match SimpleHandler(payload)
    case Some(screen) => Open(screen)
    case None =>
      match AdminHandler(payload)
      case Some(screen) => if fromAdmin then OpenAdmin(screen) else Denied
      case None => Ignored
  }

  /** The action `button_handler` takes for `payload`, pressed by an administrator or not. */
  function Decode(payload: string, fromAdmin: bool, rules: CharRules): (a: Action)
    ensures a.RemoveConfig? || a.OpenAdmin? ==> fromAdmin
    ensures a.ShowFaq? ==> a.index < FaqCount
  {
    match PrefixAction(payload, fromAdmin, rules)
    case Some(action) => action
    case None => TableAction(payload, fromAdmin)
  }

  /** A server button's payload `config_<id>` opens that entry, whatever the id holds. */
  lemma DecodeConfigPayload(id: string, fromAdmin: bool, rules: CharRules)
    ensures Decode("config_" + id, fromAdmin, rules) == ShowConfig(id)
  {
    var p := "config_" + id;
    assert "config_" <= p && p[7..] == id;
  }

  /** A copy button's payload `copy_<id>` copies that entry. */
  lemma DecodeCopyPayload(id: string, fromAdmin: bool, rules: CharRules)
    ensures Decode("copy_" + id, fromAdmin, rules) == CopyConfig(id)
  {
    var p := "copy_" + id;
    assert "copy_" <= p && p[5..] == id;
    assert p[0] == 'c' && p[2] == 'p';
  }

  /** A removal button's payload `admin_remove_<id>` removes that entry, for the administrator only. */
  lemma DecodeRemovePayload(id: string, rules: CharRules)
    ensures Decode("admin_remove_" + id, true, rules) == RemoveConfig(id)
    ensures Decode("admin_remove_" + id, false, rules) == Denied
  {
    var p := "admin_remove_" + id;
    assert "admin_remove_" <= p && p[13..] == id;
    assert p[0] == 'a';
  }

  /**
   * A FAQ payload `faq_<i>`, for any integer `i` written as `str(i)`, shows
   * question `i` when it exists and is rejected otherwise; a negative index is rejected.
   */
  lemma DecodeFaqPayload(i: int, fromAdmin: bool, rules: CharRules)
    requires AsciiDecimal(rules)
    ensures Decode("faq_" + SignedDecimal(i), fromAdmin, rules)
            == if 0 <= i < FaqCount then ShowFaq(i) else FaqNotFound(i)
  {
    var digits := SignedDecimal(i);
    assert '_' !in digits by {
      assert forall k :: 0 <= k < |digits| ==> digits[k] == '-' || IsDigit(digits[k]);
    }
    DecodeFaqSegment(digits, fromAdmin, rules);
    ParseIntSignedDecimal(i, rules);
  }

  /** A payload `faq_<seg>` whose segment holds no `_` runs `int(seg)` on the whole segment. */
  lemma DecodeFaqSegment(seg: string, fromAdmin: bool, rules: CharRules)
    requires '_' !in seg
    ensures Decode("faq_" + seg, fromAdmin, rules) == FaqAction(seg, rules)
  {
    var p := "faq_" + seg;
    assert "faq_" <= p;
    assert p[0] == 'f';
    AfterFirstOfPrefix(p, "faq_", '_', 3);
    assert p[4..] == seg;
    assert Split(seg, '_') == [seg];
  }

  /** The table key `copy_sublink` is caught by the `copy_` test first: it copies the entry "sublink". */
  lemma CopySublinkShadowed(payload: string, fromAdmin: bool, rules: CharRules)
    requires payload == "copy_sublink"
    ensures Decode(payload, fromAdmin, rules) == CopyConfig("sublink")
  {
    var id := payload[5..];
    assert payload == "copy_" + id && id == "sublink";
    DecodeCopyPayload(id, fromAdmin, rules);
  }

  /** The table key `admin_remove_config` is caught by the `admin_remove_` test first: it removes the entry "config". */
  lemma RemoveMenuShadowed(payload: string, rules: CharRules)
    requires payload == "admin_remove_config"
    ensures Decode(payload, true, rules) == RemoveConfig("config")
    ensures Decode(payload, false, rules) == Denied
  {
    var id := payload[13..];
    assert payload == "admin_remove_" + id && id == "config";
    DecodeRemovePayload(id, rules);
  }

  /** The two shadowed table keys begin with a prefix that is tested first. */
  lemma ShadowedKeys()
    ensures "copy_" <= SimpleKey(CopySublink)
    ensures "admin_remove_" <= AdminKey(RemoveConfigMenu)
  {
  }

  /** So no payload ever reaches the table's copy-sublink or remove-menu handlers. */
  lemma ShadowedHandlersUnreachable(payload: string, fromAdmin: bool, rules: CharRules)
    ensures Decode(payload, fromAdmin, rules) != Open(CopySublink)
    ensures Decode(payload, fromAdmin, rules) != OpenAdmin(RemoveConfigMenu)
  {
    if PrefixAction(payload, fromAdmin, rules).None? {
      ShadowedKeys();
      assert payload != SimpleKey(CopySublink) && payload != AdminKey(RemoveConfigMenu);
    }
  }

  /**
   * Only `admin_remove_` payloads and the administrator table ask who pressed:
   * a non-administrator is denied exactly those, and gets the same action as
   * the administrator for every other payload.
   */
  lemma AdminGate(payload: string, rules: CharRules)
    ensures Decode(payload, false, rules) == Denied
            <==> Decode(payload, true, rules).RemoveConfig? || Decode(payload, true, rules).OpenAdmin?
    ensures Decode(payload, false, rules) != Denied ==> Decode(payload, false, rules) == Decode(payload, true, rules)
  {
  }

  /** The public table reads each screen back from its key. */
  lemma SimpleKeyRoundTrip(s: Screen)
    ensures SimpleHandler(SimpleKey(s)) == Some(s)
  {
  }

  /** The administrator table reads each screen back from its key. */
  lemma AdminKeyRoundTrip(s: AdminScreen)
    ensures AdminHandler(AdminKey(s)) == Some(s)
  {
  }

  /** No public key starts like an administrator key. */
  lemma SimpleKeyInitial(s: Screen)
    ensures |SimpleKey(s)| >= 3 && SimpleKey(s)[0] != 'a'
  {
  }

  /** Every administrator key is `admin_` and more; only the remove menu's continues with `r`. */
  lemma AdminKeyInitial(s: AdminScreen)
    ensures |AdminKey(s)| > 6 && AdminKey(s)[0] == 'a'
    ensures s != RemoveConfigMenu ==> AdminKey(s)[6] != 'r'
  {
  }

  /** Every screen of the public table is reached from its key, except the shadowed copy-sublink one. */
  lemma DecodeSimpleKey(s: Screen, fromAdmin: bool, rules: CharRules)
    requires s != CopySublink
    ensures Decode(SimpleKey(s), fromAdmin, rules) == Open(s)
  {
    var p := SimpleKey(s);
    SimpleKeyRoundTrip(s);
    SimpleKeyInitial(s);
    if s == FaqMenu {
      assert |p| == 3;
    } else if s == Clients {
      assert p[0] == 'c' && p[1] == 'l';
    } else {
      assert p[0] != 'c' && p[0] != 'f';
    }
  }

  /**
   * Every screen of the administrator table but the shadowed remove menu is
   * reached from its key: it opens for the administrator and is denied to
   * anyone else.
   */
  lemma DecodeAdminKey(s: AdminScreen, fromAdmin: bool, rules: CharRules)
    requires s != RemoveConfigMenu
    ensures Decode(AdminKey(s), fromAdmin, rules) == if fromAdmin then OpenAdmin(s) else Denied
  {
    var p := AdminKey(s);
    AdminKeyInitial(s);
    assert PrefixAction(p, fromAdmin, rules).None? by {
      assert p[0] == 'a' && p[6] != 'r';
      assert "admin_remove_"[6] == 'r';
    }
    assert SimpleHandler(p).None? by {
      if SimpleHandler(p).Some? {
        SimpleKeyInitial(SimpleHandler(p).value);
      }
    }
    AdminKeyRoundTrip(s);
  }

  /**
   * A FAQ digit of any script is read by its value, as `int()` does: `faq_`
   * followed by one Arabic-Indic digit one shows question 1.
   */
  lemma DecodeFaqDigit(payload: string, d: char, fromAdmin: bool, rules: CharRules)
    requires payload == "faq_" + [d] && d != '_' && d != '-' && d != '+' && !IntSpace(d)
    requires rules.decimal(d).Some?
    ensures Decode(payload, fromAdmin, rules)
            == if rules.decimal(d).value < FaqCount then ShowFaq(rules.decimal(d).value) else FaqNotFound(rules.decimal(d).value)
  {
    assert "faq_" <= payload && payload[0] == 'f';
    AfterFirstOfPrefix(payload, "faq_", '_', 3);
    assert payload[4..] == [d];
    assert Split([d], '_') == [[d]];
    assert Split(payload, '_')[1] == [d];
    assert LeadingCount([d], IntSpace) == 0 && TrailingCount([d], IntSpace) == 0;
    assert Trim([d], IntSpace) == [d];
    assert DecimalValue([d], rules.decimal) == rules.decimal(d).value by {
      assert [d][..0] == [];
    }
  }

  /**
   * `int()` does not skip the information separators U+001C..U+001F that
   * `str.isspace()` counts as whitespace: one of them before the digits makes
   * the FAQ payload unparsable.
   */
  lemma DecodeFaqSeparator(payload: string, c: char, digits: string, fromAdmin: bool, rules: CharRules)
    requires payload == "faq_" + [c] + digits && '_' !in digits
    requires '\U{1C}' <= c <= '\U{1F}' && rules.decimal(c).None?
    ensures Decode(payload, fromAdmin, rules) == FaqUnparsable
  {
    var seg := [c] + digits;
    assert payload == "faq_" + seg;
    assert '_' !in seg by {
      assert forall k :: 1 <= k < |seg| ==> seg[k] == digits[k - 1];
    }
    DecodeFaqSegment(seg, fromAdmin, rules);
    SeparatorUnparsable(seg, rules);
  }

  /** `int()` rejects a text that starts with an information separator. */
  lemma SeparatorUnparsable(seg: string, rules: CharRules)
    requires seg != [] && '\U{1C}' <= seg[0] <= '\U{1F}' && rules.decimal(seg[0]).None?
    ensures ParseInt(seg, rules.decimal).None?
  {
    assert LeadingCount(seg, IntSpace) == 0;
    var t := Trim(seg, IntSpace);
    assert t != [] && t[0] == seg[0];
    assert !AllDecimal(t, rules.decimal);
  }

  /** So payload `faq_` U+001C `1` shows nothing, where `faq_1` shows question 1. */
  lemma FaqSeparatorExample(payload: string, fromAdmin: bool, rules: CharRules)
    requires payload == "faq_\U{1C}1" && rules.decimal('\U{1C}').None?
    ensures Decode(payload, fromAdmin, rules) == FaqUnparsable
  {
    assert payload == "faq_" + ['\U{1C}'] + "1";
    DecodeFaqSeparator(payload, '\U{1C}', "1", fromAdmin, rules);
  }
}
