/** The route table of rust/genesis-api/src/admin_auth.rs as its handlers rely on it: one area
    of requests per requirement, free of any order among the rules. */
module AdminTable {
  import opened Prelude
  import opened Text
  import opened AdminRoutes

  // ----- The areas -----

  datatype Area =
    SuperOnly
    | UserDesk
    | GameDesk
    | PartnerDesk
    | UploadDesk
    | SupportDesk
    | SecurityDesk
    | LootDesk
    | BackupDesk
    | TransparencyDesk
    | LabelDesk
    | PagesDesk
    | NewsDesk
    | MonetizationDesk
    | PromoDesk
    | SettingsDesk
    | RigRoomDesk
    | ReportDesk
    | HardwareDesk
    | ShopDesk
    | DashboardDesk
    | MetricsDesk

  /** The requirement of an area; no tab opens the first. */
  function Need(a: Area): Requirement {
    match a
    case SuperOnly => Super
    case UserDesk => Tab("users")
    case GameDesk => Tab("games")
    case PartnerDesk => Tab("partners")
    case UploadDesk => AnyOf(["partners", "settings:news"])
    case SupportDesk => Tab("support")
    case SecurityDesk => Tab("security")
    case LootDesk => Tab("lootboxes")
    case BackupDesk => Tab("backup")
    case TransparencyDesk => Tab("transparency")
    case LabelDesk => Tab("settings:labels")
    case PagesDesk => Tab("settings:pages")
    case NewsDesk => Tab("settings:news")
    case MonetizationDesk => Tab("settings:monetization")
    case PromoDesk => AnyOf(["settings:monetization", "lootboxes"])
    case SettingsDesk => Tab("settings")
    case RigRoomDesk => Tab("settings:rigrooms")
    case ReportDesk => Tab("reports")
    case HardwareDesk => Tab("shops:hardware")
    case ShopDesk => Tab("shops")
    case DashboardDesk => Tab("dashboard")
    case MetricsDesk => AnyOf(["metrics", "dashboard"])
  }

  /** Account operations no tab opens. */
  predicate SuperTool(p: string) {
    Is(p, "/api/admin/update-permissions")
    || Is(p, "/api/admin/restore")
    || Is(p, "/api/admin/recall-all-players-items")
  }

  /** Deletions no tab opens. */
  predicate BulkDelete(p: string) {
    Is(p, "/api/admin/bulk-delete") || Is(p, "/api/admin/promo-codes/bulk-delete")
  }

  /** Ledgers no tab opens. */
  predicate SuperLedger(p: string) {
    StartsWith(p, "/api/admin/referrals/") || StartsWith(p, "/api/admin/withdrawals")
  }

  /** The three destructive tools of the security page. */
  predicate SecurityTool(m: Method, p: string) {
    m == POST
    && (Is(p, "/api/admin/security/bulk-tools/config")
        || Is(p, "/api/admin/security/inactive-block/apply")
        || Is(p, "/api/admin/security/force-password-reset/apply"))
  }

  predicate EconomyTool(m: Method, p: string) {
    m == POST
    && (Is(p, "/api/admin/economy-settings")
        || Is(p, "/api/admin/economy/distribution-preview")
        || Is(p, "/api/admin/mining-coins/sync-live-prices"))
  }

  /** Writes to what players read under the same path. */
  predicate SiteWrite(m: Method, p: string) {
    (m == POST
     && (Is(p, "/api/mining-coins")
         || Is(p, "/api/mining-coins/set-active")
         || Is(p, "/api/web3-settings")
         || Is(p, "/api/wallet-labels")
         || Is(p, "/api/nfts/receive")
         || Is(p, "/api/exchange-settings")))
    || (m != GET && StartsWith(p, "/api/mining/coins"))
  }

  predicate UserTool(m: Method, p: string) {
    (m == POST && Is(p, "/api/admin/impersonate"))
    || Is(p, "/api/admin/bulk-gift")
    || Is(p, "/api/admin/update-coin-balance")
    || Is(p, "/api/admin/bulk-update-coin-balance")
    || Is(p, "/api/admin/accounts-dormant-mining")
  }

  predicate UserReport(p: string) {
    Is(p, "/api/admin/ranking")
    || Is(p, "/api/admin/ranking-exclusion")
    || StartsWith(p, "/api/admin/user-activity")
    || StartsWith(p, "/api/admin/referral-models")
    || StartsWith(p, "/api/admin/access-level-referral-assignments")
  }

  predicate UserRecord(m: Method, p: string) {
    (m == GET && Is(p, "/api/users"))
    || (m == PUT && (Is(p, "/api/user") || Is(p, "/api/users/block")))
    || (m == DELETE && StartsWith(p, "/api/user/"))
    || (m == GET && StartsWith(p, "/api/game-state/")
        && !Is(p, "/api/game-state/") && !Is(p, "/api/game-state/me"))
  }

  predicate LootRoute(m: Method, p: string) {
    StartsWith(p, "/api/admin/loot-boxes")
    || StartsWith(p, "/api/admin/loot-box-redemptions/")
    || StartsWith(p, "/api/admin/user-boxes")
    || Is(p, "/api/admin/delete-user-box")
    || (m == POST && Is(p, "/api/loot-boxes"))
  }

  predicate BackupRoute(p: string) {
    Is(p, "/api/admin/backup")
    || StartsWith(p, "/api/admin/backups")
    || StartsWith(p, "/api/admin/backup-settings")
    || Is(p, "/api/admin/recall-scan")
  }

  predicate NewsRoute(p: string) {
    StartsWith(p, "/api/admin/announcements")
    || StartsWith(p, "/api/admin/in-app-announcements")
    || StartsWith(p, "/api/player-news/")
    || Is(p, "/api/news")
    || StartsWith(p, "/api/news/")
    || Is(p, "/api/news-fee")
    || Is(p, "/api/news-expire-days")
  }

  predicate MonetizationRoute(m: Method, p: string) {
    StartsWith(p, "/api/admin/checkin-premium-policy")
    || StartsWith(p, "/api/admin/checkin-reward-policy")
    || StartsWith(p, "/api/admin/monetization-settings")
    || Is(p, "/api/admin/quests")
    || (m == POST && Is(p, "/api/monetization-settings"))
    || StartsWith(p, "/api/season-passes")
    || Is(p, "/api/season-pass/grant")
  }

  predicate SalesReport(m: Method, p: string) {
    (m == GET && (Is(p, "/api/admin/reinvestment-history")
                  || Is(p, "/api/admin/shop/checkouts")
                  || Is(p, "/api/admin/purchases/report")
                  || Is(p, "/api/wallet-labels")))
    || (m == POST && Is(p, "/api/economy-settings"))
  }

  predicate MiningReport(p: string) {
    StartsWith(p, "/api/admin/economy-stats")
    || StartsWith(p, "/api/admin/etherscan/")
    || StartsWith(p, "/api/admin/mining-distribution/")
    || StartsWith(p, "/api/admin/mining-runtime-summary")
  }

  predicate PartnerRoute(p: string) {
    StartsWith(p, "/api/admin/partner-youtube")
    || StartsWith(p, "/api/admin/partner-videos")
    || StartsWith(p, "/api/admin/streamer-room-users")
  }

  predicate PagesRoute(p: string) {
    StartsWith(p, "/api/admin/ui-accent")
    || StartsWith(p, "/api/admin/guide")
    || StartsWith(p, "/api/admin/roadmap")
  }

  predicate SettingsRoute(m: Method, p: string) {
    m == POST && (Is(p, "/api/access-levels") || Is(p, "/api/admin/site-maintenance"))
  }

  predicate HardwareRoute(m: Method, p: string) {
    Is(p, "/api/admin-upgrades")
    || StartsWith(p, "/api/admin-upgrades/")
    || (m == POST && Is(p, "/api/upgrades"))
  }

  predicate SecurityRoute(m: Method, p: string) {
    Is(p, "/api/admin/device-fingerprints")
    || (StartsWith(p, "/api/admin/security/") && !SecurityTool(m, p))
  }

  predicate GameRoute(p: string) {
    StartsWith(p, "/api/admin/wheel/") || Is(p, "/api/admin/reset-daily-boost")
  }

  predicate SupportRoute(p: string) {
    StartsWith(p, "/api/admin/support-tickets") || StartsWith(p, "/api/admin/support/")
  }

  predicate UploadRoute(p: string) {
    Is(p, "/api/admin/upload-ad")
  }

  predicate TransparencyRoute(p: string) {
    StartsWith(p, "/api/admin/transparency")
  }

  predicate LabelRoute(p: string) {
    Is(p, "/api/admin/display-labels")
  }

  predicate PromoRoute(p: string) {
    StartsWith(p, "/api/admin/promo-codes") && !BulkDelete(p)
  }

  predicate RigRoomRoute(m: Method, p: string) {
    m == POST && Is(p, "/api/rig-rooms")
  }

  predicate ShopRoute(p: string) {
    Is(p, "/api/admin/market/listings")
  }

  predicate DashboardRoute(p: string) {
    Is(p, "/api/admin/dashboard-stats")
  }

  predicate MetricsRoute(p: string) {
    Is(p, "/api/admin/metrics")
  }

  predicate SuperRoute(m: Method, p: string) {
    SuperTool(p) || BulkDelete(p) || SuperLedger(p) || SecurityTool(m, p) || EconomyTool(m, p) || SiteWrite(m, p)
  }

  ghost predicate UserRoute(m: Method, p: string) {
    UserTool(m, p) || UserReport(p) || UserRecord(m, p) || UserPath(m, p)
  }

  predicate ReportRoute(m: Method, p: string) {
    MiningReport(p) || SalesReport(m, p)
  }

  /** Which requests an area takes: those of its paths, save for what a super admin keeps. */
  ghost predicate InArea(a: Area, m: Method, p: string) {
    match a
    case SuperOnly => SuperRoute(m, p)
    case UserDesk => UserRoute(m, p)
    case GameDesk => GameRoute(p)
    case PartnerDesk => PartnerRoute(p)
    case UploadDesk => UploadRoute(p)
    case SupportDesk => SupportRoute(p)
    case SecurityDesk => SecurityRoute(m, p)
    case LootDesk => LootRoute(m, p)
    case BackupDesk => BackupRoute(p)
    case TransparencyDesk => TransparencyRoute(p)
    case LabelDesk => LabelRoute(p)
    case PagesDesk => PagesRoute(p)
    case NewsDesk => NewsRoute(p)
    case MonetizationDesk => MonetizationRoute(m, p)
    case PromoDesk => PromoRoute(p)
    case SettingsDesk => SettingsRoute(m, p)
    case RigRoomDesk => RigRoomRoute(m, p)
    case ReportDesk => ReportRoute(m, p)
    case HardwareDesk => HardwareRoute(m, p)
    case ShopDesk => ShopRoute(p)
    case DashboardDesk => DashboardRoute(p)
    case MetricsDesk => MetricsRoute(p)
  }

  // ----- The areas are disjoint: a few characters tell which one a path can lie in -----

  function At(p: string, i: nat): char {
    if i < |p| then p[i] else '?'
  }

  /** Paths that do not begin with `/api/ad`, by their sixth and seventh characters. */
  function PlainArea(m: Method, a: char, b: char): Area {
    if a == 'u' then (if b == 'p' then HardwareDesk else UserDesk)
    else if a == 'g' then UserDesk
    else if a == 'm' then (if b == 'o' then MonetizationDesk else SuperOnly)
    else if a == 'l' then LootDesk
    else if a == 'p' then NewsDesk
    else if a == 'n' then (if b == 'e' then NewsDesk else SuperOnly)
    else if a == 's' then MonetizationDesk
    else if a == 'a' then SettingsDesk
    else if a == 'r' then RigRoomDesk
    else if a == 'w' then (if b == 'a' && m == GET then ReportDesk else SuperOnly)
    else if b == 'c' then ReportDesk
    else SuperOnly
  }

  /** Admin paths whose first word begins with `re`; likewise `up` and `ec` below. */
  function AreaRe(p: string): Area {
    if At(p, 13) == 'c' then (if At(p, 18) == 'a' then SuperOnly else BackupDesk)
    else if At(p, 13) == 's' then (if At(p, 14) == 't' then SuperOnly else GameDesk)
    else if At(p, 13) == 'f' then (if At(p, 19) == 's' then SuperOnly else UserDesk)
    else ReportDesk
  }

  function AreaUp(p: string): Area {
    if At(p, 13) == 'l' then UploadDesk else if At(p, 18) == 'p' then SuperOnly else UserDesk
  }

  function AreaEc(p: string): Area {
    if At(p, 18) == '-' && At(p, 20) == 't' then ReportDesk else SuperOnly
  }

  /** Other admin paths by the first two characters of that word, where these leave a choice
      by one more. */
  function AreaAToE(p: string, a: char, b: char): Area {
    if a == 'a' then (if b == 'c' then UserDesk else NewsDesk)
    else if a == 'b' then (if b == 'a' then BackupDesk else if At(p, 16) == 'd' then SuperOnly else UserDesk)
    else if a == 'c' then MonetizationDesk
    else if a == 'd' then
      if b == 'a' then DashboardDesk
      else if b == 'i' then LabelDesk
      else if At(p, 13) == 'v' then SecurityDesk
      else LootDesk
    else (if b == 'c' then AreaEc(p) else ReportDesk)
  }

  function AreaGToM(p: string, a: char, b: char): Area {
    if a == 'g' then PagesDesk
    else if a == 'i' then (if b == 'm' then UserDesk else NewsDesk)
    else if a == 'l' then LootDesk
    else if b == 'a' then ShopDesk
    else if b == 'e' then MetricsDesk
    else if b == 'o' then MonetizationDesk
    else if At(p, 18) == 'c' then SuperOnly
    else ReportDesk
  }

  function AreaPToR(p: string, a: char, b: char): Area {
    if a == 'p' then
      if b == 'a' then PartnerDesk
      else if b == 'u' then ReportDesk
      else if BulkDelete(p) then SuperOnly
      else PromoDesk
    else if a == 'q' then MonetizationDesk
    else if b == 'a' then UserDesk
    else if b == 'o' then PagesDesk
    else AreaRe(p)
  }

  function AreaSToW(m: Method, p: string, a: char, b: char): Area {
    if a == 's' then
      if b == 't' then PartnerDesk
      else if b == 'u' then SupportDesk
      else if b == 'h' then ReportDesk
      else if b == 'i' then SettingsDesk
      else if SecurityTool(m, p) then SuperOnly
      else SecurityDesk
    else if a == 't' then TransparencyDesk
    else if a == 'u' then
      if b == 'i' then PagesDesk
      else if b == 'p' then AreaUp(p)
      else if At(p, 15) == '-' && At(p, 16) == 'b' then LootDesk
      else UserDesk
    else (if b == 'h' then GameDesk else SuperOnly)
  }

  function AdminArea(m: Method, p: string, a: char, b: char): Area {
    if a <= 'e' then AreaAToE(p, a, b)
    else if a <= 'm' then AreaGToM(p, a, b)
    else if a <= 'r' then AreaPToR(p, a, b)
    else AreaSToW(m, p, a, b)
  }

  /** The one area a request can lie in. */
  function AreaAt(m: Method, p: string): Area {
    if At(p, 5) == 'a' && At(p, 6) == 'd' then
      if At(p, 10) == '/' then AdminArea(m, p, At(p, 11), At(p, 12)) else HardwareDesk
    else PlainArea(m, At(p, 5), At(p, 6))
  }

  /** An admin path whose first word begins with these two characters. */
  predicate Admin(p: string, a: char, b: char) {
    At(p, 5) == 'a' && At(p, 6) == 'd' && At(p, 10) == '/' && At(p, 11) == a && At(p, 12) == b
  }

  lemma SuperToolMarks(p: string)
    requires SuperTool(p)
    ensures (Admin(p, 'u', 'p') && At(p, 13) == 'd' && At(p, 18) == 'p')
            || (Admin(p, 'r', 'e') && (At(p, 13), At(p, 18)) == ('c', 'a'))
            || (Admin(p, 'r', 'e') && (At(p, 13), At(p, 14)) == ('s', 't'))
  {
  }

  lemma BulkDeleteMarks(p: string)
    requires BulkDelete(p)
    ensures (Admin(p, 'b', 'u') && At(p, 16) == 'd') || Admin(p, 'p', 'r')
  {
  }

  lemma SuperLedgerMarks(p: string)
    requires SuperLedger(p)
    ensures Admin(p, 'w', 'i') || (Admin(p, 'r', 'e') && (At(p, 13), At(p, 19)) == ('f', 's'))
  {
  }

  lemma SecurityToolStem(m: Method, p: string)
    requires SecurityTool(m, p)
    ensures StartsWith(p, "/api/admin/se")
  {
  }

  lemma SecurityToolMarks(m: Method, p: string)
    requires SecurityTool(m, p)
    ensures Admin(p, 's', 'e')
  {
    SecurityToolStem(m, p);
    hide SecurityTool;
  }

  lemma EconomyToolMarks(m: Method, p: string)
    requires EconomyTool(m, p)
    ensures (Admin(p, 'e', 'c') && (At(p, 18), At(p, 20)) != ('-', 't'))
            || (Admin(p, 'm', 'i') && At(p, 18) == 'c')
  {
  }

  lemma SiteWriteMarks(m: Method, p: string)
    requires SiteWrite(m, p)
    ensures (At(p, 5), At(p, 6)) in {('m', 'i'), ('w', 'e'), ('n', 'f'), ('e', 'x')}
            || ((At(p, 5), At(p, 6)) == ('w', 'a') && m == POST)
  {
  }

  lemma UserToolMarks(m: Method, p: string)
    requires UserTool(m, p)
    ensures Admin(p, 'i', 'm') || Admin(p, 'a', 'c') || (Admin(p, 'b', 'u') && At(p, 16) != 'd')
            || (Admin(p, 'u', 'p') && At(p, 13) == 'd' && At(p, 18) != 'p')
  {
  }

  lemma UserReportMarks(p: string)
    requires UserReport(p)
    ensures Admin(p, 'r', 'a') || Admin(p, 'a', 'c')
            || (Admin(p, 'u', 's') && (At(p, 15), At(p, 16)) != ('-', 'b'))
            || (Admin(p, 'r', 'e') && At(p, 13) == 'f' && At(p, 19) != 's')
  {
  }

  lemma UserRecordMarks(m: Method, p: string)
    requires UserRecord(m, p)
    ensures (At(p, 5), At(p, 6)) in {('u', 's'), ('g', 'a')}
  {
  }

  lemma LootRouteMarks(m: Method, p: string)
    requires LootRoute(m, p)
    ensures Admin(p, 'l', 'o') || (At(p, 5), At(p, 6)) == ('l', 'o')
            || (Admin(p, 'u', 's') && (At(p, 15), At(p, 16)) == ('-', 'b'))
            || (Admin(p, 'd', 'e') && At(p, 13) != 'v')
  {
  }

  lemma BackupRouteMarks(p: string)
    requires BackupRoute(p)
    ensures Admin(p, 'b', 'a') || (Admin(p, 'r', 'e') && At(p, 13) == 'c' && At(p, 18) != 'a')
  {
  }

  lemma NewsRouteMarks(p: string)
    requires NewsRoute(p)
    ensures Admin(p, 'a', 'n') || Admin(p, 'i', 'n') || (At(p, 5), At(p, 6)) in {('p', 'l'), ('n', 'e')}
  {
  }

  lemma MonetizationRouteMarks(m: Method, p: string)
    requires MonetizationRoute(m, p)
    ensures Admin(p, 'c', 'h') || Admin(p, 'm', 'o') || Admin(p, 'q', 'u')
            || (At(p, 5), At(p, 6)) in {('m', 'o'), ('s', 'e')}
  {
  }

  lemma SalesReportMarks(m: Method, p: string)
    requires SalesReport(m, p)
    ensures (Admin(p, 'r', 'e') && At(p, 13) == 'i') || Admin(p, 's', 'h') || Admin(p, 'p', 'u')
            || ((At(p, 5), At(p, 6)) == ('w', 'a') && m == GET) || (At(p, 5), At(p, 6)) == ('e', 'c')
  {
  }

  lemma MiningReportMarks(p: string)
    requires MiningReport(p)
    ensures (Admin(p, 'e', 'c') && (At(p, 18), At(p, 20)) == ('-', 't')) || Admin(p, 'e', 't')
            || (Admin(p, 'm', 'i') && At(p, 18) != 'c')
  {
  }

  lemma PartnerRouteMarks(p: string)
    requires PartnerRoute(p)
    ensures Admin(p, 'p', 'a') || Admin(p, 's', 't')
  {
  }

  lemma PagesRouteMarks(p: string)
    requires PagesRoute(p)
    ensures Admin(p, 'u', 'i') || Admin(p, 'g', 'u') || Admin(p, 'r', 'o')
  {
  }

  lemma SettingsRouteMarks(m: Method, p: string)
    requires SettingsRoute(m, p)
    ensures Admin(p, 's', 'i') || (At(p, 5), At(p, 6)) == ('a', 'c')
  {
  }

  lemma HardwareRouteMarks(m: Method, p: string)
    requires HardwareRoute(m, p)
    ensures ((At(p, 5), At(p, 6)) == ('a', 'd') && At(p, 10) == '-') || (At(p, 5), At(p, 6)) == ('u', 'p')
  {
  }

  lemma GameRouteMarks(p: string)
    requires GameRoute(p)
    ensures Admin(p, 'w', 'h') || (Admin(p, 'r', 'e') && At(p, 13) == 's' && At(p, 14) != 't')
  {
  }

  lemma SupportRouteMarks(p: string)
    requires SupportRoute(p)
    ensures Admin(p, 's', 'u')
  {
  }

  lemma SecurityStemMarks(p: string)
    requires StartsWith(p, "/api/admin/security/")
    ensures Admin(p, 's', 'e')
  {
  }

  lemma FingerprintMarks(p: string)
    requires Is(p, "/api/admin/device-fingerprints")
    ensures Admin(p, 'd', 'e') && At(p, 13) == 'v'
  {
  }

  lemma SecurityRouteMarks(m: Method, p: string)
    requires SecurityRoute(m, p)
    ensures (Admin(p, 's', 'e') && !SecurityTool(m, p)) || (Admin(p, 'd', 'e') && At(p, 13) == 'v')
  {
    hide SecurityTool, Admin, At;
    if Is(p, "/api/admin/device-fingerprints") {
      FingerprintMarks(p);
    } else {
      SecurityStemMarks(p);
    }
    hide StartsWith, Is;
  }

  lemma UploadRouteMarks(p: string)
    requires UploadRoute(p)
    ensures Admin(p, 'u', 'p') && At(p, 13) == 'l'
  {
  }

  lemma TransparencyRouteMarks(p: string)
    requires TransparencyRoute(p)
    ensures Admin(p, 't', 'r')
  {
  }

  lemma LabelRouteMarks(p: string)
    requires LabelRoute(p)
    ensures Admin(p, 'd', 'i')
  {
  }

  lemma PromoRouteMarks(p: string)
    requires PromoRoute(p)
    ensures Admin(p, 'p', 'r') && !BulkDelete(p)
  {
  }

  lemma RigRoomRouteMarks(m: Method, p: string)
    requires RigRoomRoute(m, p)
    ensures At(p, 5) == 'r'
  {
  }

  lemma ShopRouteMarks(p: string)
    requires ShopRoute(p)
    ensures Admin(p, 'm', 'a')
  {
  }

  lemma DashboardRouteMarks(p: string)
    requires DashboardRoute(p)
    ensures Admin(p, 'd', 'a')
  {
  }

  lemma MetricsRouteMarks(p: string)
    requires MetricsRoute(p)
    ensures Admin(p, 'm', 'e')
  {
  }

  lemma UserPathMarks(m: Method, p: string)
    requires UserPath(m, p)
    ensures StartsWith(p, USER_STEM)
    ensures Admin(p, 'u', 's') && At(p, 15) == 's'
  {
    assert StartsWith(p, USER_STEM) by {
      hide Suffix;
    }
    UsersShape(p);
    hide *;
  }

  lemma SuperRouteAt(m: Method, p: string)
    requires SuperRoute(m, p)
    ensures AreaAt(m, p) == SuperOnly
  {
    hide Is, StartsWith, At, SuperTool, BulkDelete, SuperLedger, SecurityTool, EconomyTool, SiteWrite;
    if SuperTool(p) {
      SuperToolMarks(p);
    } else if BulkDelete(p) {
      BulkDeleteMarks(p);
    } else if SuperLedger(p) {
      SuperLedgerMarks(p);
    } else if SecurityTool(m, p) {
      SecurityToolMarks(m, p);
    } else if EconomyTool(m, p) {
      EconomyToolMarks(m, p);
    } else {
      SiteWriteMarks(m, p);
    }
  }

  lemma UserRouteAt(m: Method, p: string)
    requires UserRoute(m, p)
    ensures AreaAt(m, p) == UserDesk
  {
    hide Is, StartsWith, At, UserTool, UserReport, UserRecord, UserPath;
    if UserTool(m, p) {
      UserToolMarks(m, p);
    } else if UserReport(p) {
      UserReportMarks(p);
    } else if UserRecord(m, p) {
      UserRecordMarks(m, p);
    } else {
      UserPathMarks(m, p);
    }
  }

  lemma ReportRouteAt(m: Method, p: string)
    requires ReportRoute(m, p)
    ensures AreaAt(m, p) == ReportDesk
  {
    hide Is, StartsWith, At, MiningReport, SalesReport;
    if MiningReport(p) {
      MiningReportMarks(p);
    } else {
      SalesReportMarks(m, p);
    }
  }

  /** A request lies in one area at most. */
  lemma OnlyArea(a: Area, m: Method, p: string)
    requires InArea(a, m, p)
    ensures a == AreaAt(m, p)
  {
    hide Is, StartsWith, At, SuperTool, SecurityTool, SuperRoute, UserRoute, ReportRoute, GameRoute, PartnerRoute,
         SupportRoute, SecurityRoute, LootRoute, BackupRoute, PagesRoute, NewsRoute, MonetizationRoute,
         SettingsRoute, HardwareRoute, UploadRoute, TransparencyRoute, LabelRoute, PromoRoute, RigRoomRoute, ShopRoute,
         DashboardRoute, MetricsRoute;
    match a
    case SuperOnly => SuperRouteAt(m, p);
    case UserDesk => UserRouteAt(m, p);
    case GameDesk => GameRouteMarks(p);
    case PartnerDesk => PartnerRouteMarks(p);
    case SupportDesk => SupportRouteMarks(p);
    case SecurityDesk => SecurityRouteMarks(m, p);
    case LootDesk => LootRouteMarks(m, p);
    case BackupDesk => BackupRouteMarks(p);
    case PagesDesk => PagesRouteMarks(p);
    case NewsDesk => NewsRouteMarks(p);
    case MonetizationDesk => MonetizationRouteMarks(m, p);
    case SettingsDesk => SettingsRouteMarks(m, p);
    case ReportDesk => ReportRouteAt(m, p);
    case HardwareDesk => HardwareRouteMarks(m, p);
    case UploadDesk => UploadRouteMarks(p);
    case TransparencyDesk => TransparencyRouteMarks(p);
    case LabelDesk => LabelRouteMarks(p);
    case PromoDesk => PromoRouteMarks(p);
    case RigRoomDesk => RigRoomRouteMarks(m, p);
    case ShopDesk => ShopRouteMarks(p);
    case DashboardDesk => DashboardRouteMarks(p);
    case MetricsDesk => MetricsRouteMarks(p);
  }

  // ----- A run of rules that applies answers for an area -----

  lemma GameStateExactly(p: string)
    ensures GameStateByEmail(p)
       <==> StartsWith(p, "/api/game-state/") && !Is(p, "/api/game-state/") && !Is(p, "/api/game-state/me")
  {
  }

  lemma ActorAreas(m: Method, p: string)
    requires ActorRules(m, p).Some?
    ensures var rule := ActorRules(m, p).value;
            || (rule == Super && SuperRoute(m, p))
            || (rule == Tab(USERS) && UserRoute(m, p))
  {
    hide Is, StartsWith, UserSubRoute, Suffix, PagePath;
  }

  lemma WheelAreas(m: Method, p: string)
    requires WheelRules(m, p).Some?
    ensures var rule := WheelRules(m, p).value;
            || (rule == Tab(GAMES) && GameRoute(p))
            || (rule == Super && SuperRoute(m, p))
  {
    hide Is, StartsWith, UserSubRoute;
  }

  lemma PartnerAreas(m: Method, p: string)
    requires PartnerRules(m, p).Some?
    ensures var rule := PartnerRules(m, p).value;
            || (rule == Tab(PARTNERS) && PartnerRoute(p))
            || (rule == AnyOf([PARTNERS, NEWS]) && UploadRoute(p))
            || (rule == Tab(SUPPORT) && SupportRoute(p))
  {
    hide Is, StartsWith, UserSubRoute;
  }

  lemma SecurityAreas(m: Method, p: string)
    requires SecurityRules(m, p).Some?
    ensures var rule := SecurityRules(m, p).value;
            || (rule == Super && SuperRoute(m, p))
            || (rule == Tab(SECURITY) && SecurityRoute(m, p))
  {
    hide Is, StartsWith, UserSubRoute;
  }

  lemma LootBoxAreas(m: Method, p: string)
    requires LootBoxRules(m, p).Some?
    ensures LootBoxRules(m, p).value == Tab(LOOTBOXES) && LootRoute(m, p)
  {
    hide Is, StartsWith, UserSubRoute;
  }

  lemma BackupAreas(m: Method, p: string)
    requires BackupRules(m, p).Some?
    ensures var rule := BackupRules(m, p).value;
            || (rule == Tab(BACKUP) && BackupRoute(p))
            || (rule == Tab(TRANSPARENCY) && TransparencyRoute(p))
  {
    hide Is, StartsWith, UserSubRoute;
  }

  lemma PageAreas(m: Method, p: string)
    requires PageRules(m, p).Some?
    ensures var rule := PageRules(m, p).value;
            || (rule == Tab(LABELS) && LabelRoute(p))
            || (rule == Tab(PAGES) && PagesRoute(p))
            || (rule == Tab(NEWS) && NewsRoute(p))
  {
    hide Is, StartsWith, UserSubRoute;
  }

  lemma NewsAreas(m: Method, p: string)
    requires NewsRules(m, p).Some?
    ensures var rule := NewsRules(m, p).value;
            || (rule == Tab(MONETIZATION) && MonetizationRoute(m, p))
            || (rule == Tab(NEWS) && NewsRoute(p))
  {
    hide Is, StartsWith, UserSubRoute;
  }

  lemma SeasonAreas(m: Method, p: string)
    requires SeasonRules(m, p).Some?
    ensures var rule := SeasonRules(m, p).value;
            || (rule == Tab(NEWS) && NewsRoute(p))
            || (rule == Tab(MONETIZATION) && MonetizationRoute(m, p))
  {
    hide Is, StartsWith, UserSubRoute;
  }

  lemma CatalogAreas(m: Method, p: string)
    requires CatalogRules(m, p).Some?
    requires ActorRules(m, p).None?
    ensures var rule := CatalogRules(m, p).value;
            || (rule == AnyOf([MONETIZATION, LOOTBOXES]) && PromoRoute(p))
            || (rule == Tab(SETTINGS) && SettingsRoute(m, p))
            || (rule == Tab(RIGROOMS) && RigRoomRoute(m, p))
            || (rule == Super && SuperRoute(m, p))
            || (rule == Tab(REPORTS) && ReportRoute(m, p))
  {
    hide Is, StartsWith, UserSubRoute;
  }

  lemma ShopAreas(m: Method, p: string)
    requires ShopRules(m, p).Some?
    ensures var rule := ShopRules(m, p).value;
            || (rule == Tab(HARDWARE) && HardwareRoute(m, p))
            || (rule == Tab(SHOPS) && ShopRoute(p))
            || (rule == Super && SuperRoute(m, p))
            || (rule == Tab(USERS) && UserRoute(m, p))
  {
    hide Is, StartsWith, UserSubRoute, Suffix, PagePath;
  }

  lemma UserAreas(m: Method, p: string)
    requires UserRules(m, p).Some?
    ensures UserRules(m, p).value == Tab(USERS) && UserRoute(m, p)
  {
    hide Is, StartsWith, UserSubRoute, Suffix, PagePath;
  }

  lemma UserAuditAreas(m: Method, p: string)
    requires UserAuditRules(m, p).Some?
    ensures var rule := UserAuditRules(m, p).value;
            || (rule == Super && SuperRoute(m, p))
            || (rule == Tab(USERS) && UserRoute(m, p))
  {
    PageCases(m, p);
    hide Is, StartsWith, UserSubRoute, PagePath;
  }

  lemma UserEditAreas(m: Method, p: string)
    requires UserEditRules(m, p).Some?
    ensures UserEditRules(m, p).value == Tab(USERS) && UserRoute(m, p)
  {
    PageCases(m, p);
    hide Is, StartsWith, UserSubRoute, PagePath;
  }

  lemma UserHistoryAreas(m: Method, p: string)
    requires UserHistoryRules(m, p).Some?
    ensures UserHistoryRules(m, p).value == Tab(USERS) && UserRoute(m, p)
  {
    PageCases(m, p);
    GameStateExactly(p);
    hide Is, StartsWith, UserSubRoute, PagePath, GameStateByEmail;
  }

  lemma SuspiciousEmailAreas(m: Method, p: string)
    requires SuspiciousEmailRules(m, p).Some?
    ensures SuspiciousEmailRules(m, p).value == Tab(USERS) && UserRoute(m, p)
  {
    hide Is, StartsWith, UserSubRoute, Suffix, PagePath;
  }

  lemma MiningAreas(m: Method, p: string)
    requires MiningRules(m, p).Some?
    ensures MiningRules(m, p).value == Tab(REPORTS) && ReportRoute(m, p)
  {
    hide Is, StartsWith, UserSubRoute;
  }

  lemma PurchaseAreas(m: Method, p: string)
    requires PurchaseRules(m, p).Some?
    ensures var rule := PurchaseRules(m, p).value;
            || (rule == Tab(REPORTS) && ReportRoute(m, p))
            || (rule == Super && SuperRoute(m, p))
  {
    hide Is, StartsWith, UserSubRoute;
  }

  lemma EconomyAreas(m: Method, p: string)
    requires EconomyRules(m, p).Some?
    ensures var rule := EconomyRules(m, p).value;
            || (rule == Super && SuperRoute(m, p))
            || (rule == Tab(REPORTS) && ReportRoute(m, p))
  {
    hide Is, StartsWith, UserSubRoute;
  }

  lemma SiteAreas(m: Method, p: string)
    requires SiteRules(m, p).Some?
    ensures var rule := SiteRules(m, p).value;
            || (rule == Tab(DASHBOARD) && DashboardRoute(p))
            || (rule == AnyOf([METRICS, DASHBOARD]) && MetricsRoute(p))
            || (rule == Tab(PAGES) && PagesRoute(p))
            || (rule == Tab(SETTINGS) && SettingsRoute(m, p))
  {
    hide Is, StartsWith, UserSubRoute;
  }

  /** Some area holds this request and has this requirement. */
  ghost predicate Backed(m: Method, p: string, rule: Requirement) {
    exists a :: InArea(a, m, p) && rule == Need(a)
  }

  /** The requirement of an area in the names the table uses. */
  function Named(a: Area): Requirement {
    match a
    case SuperOnly => Super
    case UserDesk => Tab(USERS)
    case GameDesk => Tab(GAMES)
    case PartnerDesk => Tab(PARTNERS)
    case UploadDesk => AnyOf([PARTNERS, NEWS])
    case SupportDesk => Tab(SUPPORT)
    case SecurityDesk => Tab(SECURITY)
    case LootDesk => Tab(LOOTBOXES)
    case BackupDesk => Tab(BACKUP)
    case TransparencyDesk => Tab(TRANSPARENCY)
    case LabelDesk => Tab(LABELS)
    case PagesDesk => Tab(PAGES)
    case NewsDesk => Tab(NEWS)
    case MonetizationDesk => Tab(MONETIZATION)
    case PromoDesk => AnyOf([MONETIZATION, LOOTBOXES])
    case SettingsDesk => Tab(SETTINGS)
    case RigRoomDesk => Tab(RIGROOMS)
    case ReportDesk => Tab(REPORTS)
    case HardwareDesk => Tab(HARDWARE)
    case ShopDesk => Tab(SHOPS)
    case DashboardDesk => Tab(DASHBOARD)
    case MetricsDesk => AnyOf([METRICS, DASHBOARD])
  }

  lemma NeedNamed(a: Area)
    ensures Need(a) == Named(a)
  {
  }

  lemma Enter(a: Area, m: Method, p: string)
    ensures InArea(a, m, p) ==> Backed(m, p, Named(a))
  {
    hide InArea, Need, Named;
    NeedNamed(a);
  }

  lemma EnterFirst(m: Method, p: string)
    ensures SuperRoute(m, p) ==> Backed(m, p, Super)
    ensures UserRoute(m, p) ==> Backed(m, p, Tab(USERS))
    ensures GameRoute(p) ==> Backed(m, p, Tab(GAMES))
    ensures PartnerRoute(p) ==> Backed(m, p, Tab(PARTNERS))
    ensures UploadRoute(p) ==> Backed(m, p, AnyOf([PARTNERS, NEWS]))
    ensures SupportRoute(p) ==> Backed(m, p, Tab(SUPPORT))
    ensures SecurityRoute(m, p) ==> Backed(m, p, Tab(SECURITY))
    ensures LootRoute(m, p) ==> Backed(m, p, Tab(LOOTBOXES))
  {
    Enter(SuperOnly, m, p);
    Enter(UserDesk, m, p);
    Enter(GameDesk, m, p);
    Enter(PartnerDesk, m, p);
    Enter(UploadDesk, m, p);
    Enter(SupportDesk, m, p);
    Enter(SecurityDesk, m, p);
    Enter(LootDesk, m, p);
    hide Backed, Need, Is, StartsWith, BackupRoute, DashboardRoute, GameRoute, HardwareRoute, LabelRoute, LootRoute,
         MetricsRoute, MonetizationRoute, NewsRoute, PagesRoute, PartnerRoute, PromoRoute, ReportRoute, RigRoomRoute,
         SecurityRoute, SettingsRoute, ShopRoute, SuperRoute, SupportRoute, TransparencyRoute, UploadRoute,
         UserRoute, USERS, REPORTS, GAMES, PARTNERS, SUPPORT, SECURITY, LOOTBOXES, BACKUP, TRANSPARENCY, DASHBOARD,
         METRICS, SETTINGS, LABELS, PAGES, NEWS, MONETIZATION, RIGROOMS, SHOPS, HARDWARE;
  }

  lemma EnterMore(m: Method, p: string)
    ensures BackupRoute(p) ==> Backed(m, p, Tab(BACKUP))
    ensures TransparencyRoute(p) ==> Backed(m, p, Tab(TRANSPARENCY))
    ensures LabelRoute(p) ==> Backed(m, p, Tab(LABELS))
    ensures PagesRoute(p) ==> Backed(m, p, Tab(PAGES))
    ensures NewsRoute(p) ==> Backed(m, p, Tab(NEWS))
    ensures MonetizationRoute(m, p) ==> Backed(m, p, Tab(MONETIZATION))
    ensures PromoRoute(p) ==> Backed(m, p, AnyOf([MONETIZATION, LOOTBOXES]))
  {
    Enter(BackupDesk, m, p);
    Enter(TransparencyDesk, m, p);
    Enter(LabelDesk, m, p);
    Enter(PagesDesk, m, p);
    Enter(NewsDesk, m, p);
    Enter(MonetizationDesk, m, p);
    Enter(PromoDesk, m, p);
    hide Backed, Need, Is, StartsWith, BackupRoute, DashboardRoute, GameRoute, HardwareRoute, LabelRoute, LootRoute,
         MetricsRoute, MonetizationRoute, NewsRoute, PagesRoute, PartnerRoute, PromoRoute, ReportRoute, RigRoomRoute,
         SecurityRoute, SettingsRoute, ShopRoute, SuperRoute, SupportRoute, TransparencyRoute, UploadRoute,
         UserRoute, USERS, REPORTS, GAMES, PARTNERS, SUPPORT, SECURITY, LOOTBOXES, BACKUP, TRANSPARENCY, DASHBOARD,
         METRICS, SETTINGS, LABELS, PAGES, NEWS, MONETIZATION, RIGROOMS, SHOPS, HARDWARE;
  }

  lemma EnterRest(m: Method, p: string)
    ensures SettingsRoute(m, p) ==> Backed(m, p, Tab(SETTINGS))
    ensures RigRoomRoute(m, p) ==> Backed(m, p, Tab(RIGROOMS))
    ensures ReportRoute(m, p) ==> Backed(m, p, Tab(REPORTS))
    ensures HardwareRoute(m, p) ==> Backed(m, p, Tab(HARDWARE))
    ensures ShopRoute(p) ==> Backed(m, p, Tab(SHOPS))
    ensures DashboardRoute(p) ==> Backed(m, p, Tab(DASHBOARD))
    ensures MetricsRoute(p) ==> Backed(m, p, AnyOf([METRICS, DASHBOARD]))
  {
    Enter(SettingsDesk, m, p);
    Enter(RigRoomDesk, m, p);
    Enter(ReportDesk, m, p);
    Enter(HardwareDesk, m, p);
    Enter(ShopDesk, m, p);
    Enter(DashboardDesk, m, p);
    Enter(MetricsDesk, m, p);
    hide Backed, Need, Is, StartsWith, BackupRoute, DashboardRoute, GameRoute, HardwareRoute, LabelRoute, LootRoute,
         MetricsRoute, MonetizationRoute, NewsRoute, PagesRoute, PartnerRoute, PromoRoute, ReportRoute, RigRoomRoute,
         SecurityRoute, SettingsRoute, ShopRoute, SuperRoute, SupportRoute, TransparencyRoute, UploadRoute,
         UserRoute, USERS, REPORTS, GAMES, PARTNERS, SUPPORT, SECURITY, LOOTBOXES, BACKUP, TRANSPARENCY, DASHBOARD,
         METRICS, SETTINGS, LABELS, PAGES, NEWS, MONETIZATION, RIGROOMS, SHOPS, HARDWARE;
  }

  lemma EarlyBacked(run: Run, m: Method, p: string)
    requires run.Actor? || run.Wheel? || run.Partner? || run.Security? || run.LootBox? || run.Backup? || run.Page?
    requires RunRules(run, m, p).Some?
    ensures Backed(m, p, RunRules(run, m, p).value)
  {
    hide Is, StartsWith, Backed, SuperRoute, UserRoute, ReportRoute, GameRoute, PartnerRoute, SupportRoute,
         SecurityRoute, UploadRoute, TransparencyRoute, LabelRoute, PromoRoute, RigRoomRoute, ShopRoute, DashboardRoute,
         MetricsRoute, LootRoute, BackupRoute, PagesRoute, NewsRoute, MonetizationRoute, SettingsRoute,
         HardwareRoute, ActorRules, WheelRules, PartnerRules, SecurityRules, LootBoxRules, BackupRules, PageRules,
         NewsRules, SeasonRules, CatalogRules, ShopRules, UserRules, UserAuditRules, UserEditRules,
         UserHistoryRules, SuspiciousEmailRules, MiningRules, PurchaseRules, EconomyRules, SiteRules,
         USERS, REPORTS, GAMES, PARTNERS, SUPPORT, SECURITY, LOOTBOXES, BACKUP, TRANSPARENCY, DASHBOARD, METRICS,
         SETTINGS, LABELS, PAGES, NEWS, MONETIZATION, RIGROOMS, SHOPS, HARDWARE;
    EnterFirst(m, p);
    EnterMore(m, p);
    EnterRest(m, p);
    match run
    case Actor => ActorAreas(m, p);
    case Wheel => WheelAreas(m, p);
    case Partner => PartnerAreas(m, p);
    case Security => SecurityAreas(m, p);
    case LootBox => LootBoxAreas(m, p);
    case Backup => BackupAreas(m, p);
    case Page => PageAreas(m, p);
  }

  lemma MiddleBacked(run: Run, m: Method, p: string)
    requires run.News? || run.Season? || run.Catalog? || run.Shop? || run.User? || run.UserAudit?
    requires RunRules(run, m, p).Some?
    requires run == Catalog ==> RunRules(Actor, m, p).None?
    ensures Backed(m, p, RunRules(run, m, p).value)
  {
    hide Is, StartsWith, Backed, SuperRoute, UserRoute, ReportRoute, GameRoute, PartnerRoute, SupportRoute,
         SecurityRoute, UploadRoute, TransparencyRoute, LabelRoute, PromoRoute, RigRoomRoute, ShopRoute, DashboardRoute,
         MetricsRoute, LootRoute, BackupRoute, PagesRoute, NewsRoute, MonetizationRoute, SettingsRoute,
         HardwareRoute, ActorRules, WheelRules, PartnerRules, SecurityRules, LootBoxRules, BackupRules, PageRules,
         NewsRules, SeasonRules, CatalogRules, ShopRules, UserRules, UserAuditRules, UserEditRules,
         UserHistoryRules, SuspiciousEmailRules, MiningRules, PurchaseRules, EconomyRules, SiteRules,
         USERS, REPORTS, GAMES, PARTNERS, SUPPORT, SECURITY, LOOTBOXES, BACKUP, TRANSPARENCY, DASHBOARD, METRICS,
         SETTINGS, LABELS, PAGES, NEWS, MONETIZATION, RIGROOMS, SHOPS, HARDWARE;
    EnterFirst(m, p);
    EnterMore(m, p);
    EnterRest(m, p);
    match run
    case News => NewsAreas(m, p);
    case Season => SeasonAreas(m, p);
    case Catalog => CatalogAreas(m, p);
    case Shop => ShopAreas(m, p);
    case User => UserAreas(m, p);
    case UserAudit => UserAuditAreas(m, p);
  }

  lemma LateBacked(run: Run, m: Method, p: string)
    requires run.UserEdit? || run.UserHistory? || run.SuspiciousEmail? || run.Mining? || run.Purchase?
          || run.Economy? || run.Site?
    requires RunRules(run, m, p).Some?
    ensures Backed(m, p, RunRules(run, m, p).value)
  {
    hide Is, StartsWith, Backed, SuperRoute, UserRoute, ReportRoute, GameRoute, PartnerRoute, SupportRoute,
         SecurityRoute, UploadRoute, TransparencyRoute, LabelRoute, PromoRoute, RigRoomRoute, ShopRoute, DashboardRoute,
         MetricsRoute, LootRoute, BackupRoute, PagesRoute, NewsRoute, MonetizationRoute, SettingsRoute,
         HardwareRoute, ActorRules, WheelRules, PartnerRules, SecurityRules, LootBoxRules, BackupRules, PageRules,
         NewsRules, SeasonRules, CatalogRules, ShopRules, UserRules, UserAuditRules, UserEditRules,
         UserHistoryRules, SuspiciousEmailRules, MiningRules, PurchaseRules, EconomyRules, SiteRules,
         USERS, REPORTS, GAMES, PARTNERS, SUPPORT, SECURITY, LOOTBOXES, BACKUP, TRANSPARENCY, DASHBOARD, METRICS,
         SETTINGS, LABELS, PAGES, NEWS, MONETIZATION, RIGROOMS, SHOPS, HARDWARE;
    EnterFirst(m, p);
    EnterMore(m, p);
    EnterRest(m, p);
    match run
    case UserEdit => UserEditAreas(m, p);
    case UserHistory => UserHistoryAreas(m, p);
    case SuspiciousEmail => SuspiciousEmailAreas(m, p);
    case Mining => MiningAreas(m, p);
    case Purchase => PurchaseAreas(m, p);
    case Economy => EconomyAreas(m, p);
    case Site => SiteAreas(m, p);
  }

  lemma RunBacked(run: Run, m: Method, p: string)
    requires RunRules(run, m, p).Some?
    requires run == Catalog ==> RunRules(Actor, m, p).None?
    ensures Backed(m, p, RunRules(run, m, p).value)
  {
    hide Backed, RunRules;
    match run
    case Actor | Wheel | Partner | Security | LootBox | Backup | Page => EarlyBacked(run, m, p);
    case News | Season | Catalog | Shop | User | UserAudit => MiddleBacked(run, m, p);
    case _ => LateBacked(run, m, p);
  }

  // ----- Where no rule applies there is no area -----

  /** No rule applies. */
  ghost predicate Silent(m: Method, p: string) {
    forall run :: RunRules(run, m, p).None?
  }

  lemma SilentTools(m: Method, p: string)
    requires ActorRules(m, p).None? && SecurityRules(m, p).None? && UserAuditRules(m, p).None?
    requires PurchaseRules(m, p).None? && EconomyRules(m, p).None?
    ensures !SuperTool(p) && !BulkDelete(p) && !SuperLedger(p) && !SecurityTool(m, p) && !EconomyTool(m, p)
  {
    hide Is, StartsWith, UserSubRoute;
  }

  lemma SilentWrites(m: Method, p: string)
    requires WheelRules(m, p).None? && CatalogRules(m, p).None? && ShopRules(m, p).None?
    ensures !SiteWrite(m, p)
  {
    hide Is, StartsWith, UserSubRoute;
  }

  lemma SilentUser(m: Method, p: string)
    requires ActorRules(m, p).None? && ShopRules(m, p).None? && UserRules(m, p).None?
    requires UserEditRules(m, p).None? && UserHistoryRules(m, p).None?
    ensures !UserTool(m, p) && !UserReport(p) && !UserRecord(m, p)
  {
    GameStateExactly(p);
    hide Is, StartsWith, UserSubRoute, GameStateByEmail;
  }

  lemma SilentDesk(m: Method, p: string)
    requires WheelRules(m, p).None? && PartnerRules(m, p).None? && SecurityRules(m, p).None?
    requires LootBoxRules(m, p).None? && BackupRules(m, p).None?
    ensures !GameRoute(p) && !PartnerRoute(p) && !UploadRoute(p) && !SupportRoute(p) && !SecurityRoute(m, p)
    ensures !LootRoute(m, p) && !BackupRoute(p) && !TransparencyRoute(p)
  {
    hide Is, StartsWith, UserSubRoute;
  }

  lemma SilentSettings(m: Method, p: string)
    requires PageRules(m, p).None? && NewsRules(m, p).None? && SeasonRules(m, p).None?
    requires CatalogRules(m, p).None? && SiteRules(m, p).None?
    ensures !LabelRoute(p) && !PagesRoute(p) && !NewsRoute(p) && !MonetizationRoute(m, p) && !PromoRoute(p)
    ensures !SettingsRoute(m, p) && !RigRoomRoute(m, p)
  {
    hide Is, StartsWith, UserSubRoute;
  }

  lemma SilentReport(m: Method, p: string)
    requires CatalogRules(m, p).None? && ShopRules(m, p).None? && MiningRules(m, p).None?
    requires PurchaseRules(m, p).None? && EconomyRules(m, p).None? && SiteRules(m, p).None?
    ensures !ReportRoute(m, p) && !HardwareRoute(m, p) && !ShopRoute(p) && !DashboardRoute(p) && !MetricsRoute(p)
  {
    hide Is, StartsWith, UserSubRoute;
  }

  lemma SilentEarly(m: Method, p: string)
    requires Silent(m, p)
    ensures ActorRules(m, p).None? && WheelRules(m, p).None? && PartnerRules(m, p).None? && SecurityRules(m, p).None?
    ensures LootBoxRules(m, p).None? && BackupRules(m, p).None? && PageRules(m, p).None?
  {
    hide ActorRules, WheelRules, PartnerRules, SecurityRules, LootBoxRules, BackupRules, PageRules, NewsRules,
         SeasonRules, CatalogRules, ShopRules, UserRules, UserAuditRules, UserEditRules, UserHistoryRules,
         SuspiciousEmailRules, MiningRules, PurchaseRules, EconomyRules, SiteRules;
    assert RunRules(Actor, m, p).None? && RunRules(Wheel, m, p).None? && RunRules(Partner, m, p).None?;
    assert RunRules(Security, m, p).None?;
    assert RunRules(LootBox, m, p).None? && RunRules(Backup, m, p).None? && RunRules(Page, m, p).None?;
  }

  lemma SilentMiddle(m: Method, p: string)
    requires Silent(m, p)
    ensures NewsRules(m, p).None? && SeasonRules(m, p).None? && CatalogRules(m, p).None? && ShopRules(m, p).None?
    ensures UserRules(m, p).None? && UserAuditRules(m, p).None?
  {
    hide ActorRules, WheelRules, PartnerRules, SecurityRules, LootBoxRules, BackupRules, PageRules, NewsRules,
         SeasonRules, CatalogRules, ShopRules, UserRules, UserAuditRules, UserEditRules, UserHistoryRules,
         SuspiciousEmailRules, MiningRules, PurchaseRules, EconomyRules, SiteRules;
    assert RunRules(News, m, p).None? && RunRules(Season, m, p).None? && RunRules(Catalog, m, p).None?;
    assert RunRules(Shop, m, p).None?;
    assert RunRules(User, m, p).None? && RunRules(UserAudit, m, p).None?;
  }

  lemma SilentLate(m: Method, p: string)
    requires Silent(m, p)
    ensures UserEditRules(m, p).None? && UserHistoryRules(m, p).None? && SuspiciousEmailRules(m, p).None?
    ensures MiningRules(m, p).None?
    ensures PurchaseRules(m, p).None? && EconomyRules(m, p).None? && SiteRules(m, p).None?
  {
    hide ActorRules, WheelRules, PartnerRules, SecurityRules, LootBoxRules, BackupRules, PageRules, NewsRules,
         SeasonRules, CatalogRules, ShopRules, UserRules, UserAuditRules, UserEditRules, UserHistoryRules,
         SuspiciousEmailRules, MiningRules, PurchaseRules, EconomyRules, SiteRules;
    assert RunRules(UserEdit, m, p).None? && RunRules(UserHistory, m, p).None?;
    assert RunRules(SuspiciousEmail, m, p).None? && RunRules(Mining, m, p).None?;
    assert RunRules(Purchase, m, p).None? && RunRules(Economy, m, p).None? && RunRules(Site, m, p).None?;
  }

  lemma SilentUserPath(m: Method, p: string)
    requires Silent(m, p)
    ensures !UserPath(m, p)
  {
    hide RunRules, UserPath, StartsWith;
    if UserPath(m, p) {
      UserPathMarks(m, p);
      SpeaksExactly(m, p);
    }
  }

  lemma SilentOutside(a: Area, m: Method, p: string)
    requires Silent(m, p)
    ensures !InArea(a, m, p)
  {
    hide ActorRules, WheelRules, PartnerRules, SecurityRules, LootBoxRules, BackupRules, PageRules, NewsRules,
         SeasonRules, CatalogRules, ShopRules, UserRules, UserAuditRules, UserEditRules, UserHistoryRules,
         SuspiciousEmailRules, MiningRules, PurchaseRules, EconomyRules, SiteRules,
         SuperTool, BulkDelete, SuperLedger, SecurityTool, EconomyTool, SiteWrite, UserTool, UserReport,
         UserRecord, GameRoute, PartnerRoute,
         UploadRoute, SupportRoute, SecurityRoute, LootRoute, BackupRoute, TransparencyRoute, LabelRoute, PagesRoute,
         NewsRoute, MonetizationRoute, PromoRoute, SettingsRoute, RigRoomRoute, ReportRoute, HardwareRoute, ShopRoute,
         DashboardRoute, MetricsRoute, Silent, UserPath;
    SilentEarly(m, p);
    SilentMiddle(m, p);
    SilentLate(m, p);
    SilentTools(m, p);
    SilentWrites(m, p);
    SilentUser(m, p);
    SilentUserPath(m, p);
    SilentDesk(m, p);
    SilentSettings(m, p);
    SilentReport(m, p);
  }

  lemma DecideBacked(m: Method, p: string)
    requires !Silent(m, p)
    ensures Backed(m, p, Decide(m, p))
  {
    hide RunRules, Backed;
    forall run | RunRules(run, m, p).Some? && (run == Catalog ==> RunRules(Actor, m, p).None?)
      ensures Backed(m, p, RunRules(run, m, p).value)
    {
      RunBacked(run, m, p);
    }
  }

  lemma DecideSilent(m: Method, p: string)
    requires Silent(m, p)
    ensures Decide(m, p) == Super
  {
    hide RunRules;
  }

  // ----- The table -----

  /** The first rule in order gives every request what its area needs, and a request of no
      area takes a super admin. */
  lemma TableExactly(m: Method, p: string)
    ensures forall a :: InArea(a, m, p) ==> Decide(m, p) == Need(a)
    ensures (forall a :: !InArea(a, m, p)) ==> Decide(m, p) == Super
  {
    hide Decide, InArea, Silent, AreaAt, Need;
    if Silent(m, p) {
      forall a ensures !InArea(a, m, p) {
        SilentOutside(a, m, p);
      }
      DecideSilent(m, p);
    } else {
      DecideBacked(m, p);
      forall a | InArea(a, m, p) ensures a == AreaAt(m, p) {
        OnlyArea(a, m, p);
      }
    }
  }

  lemma AreasDisjoint(a: Area, b: Area, m: Method, p: string)
    requires InArea(a, m, p) && InArea(b, m, p)
    ensures a == b
  {
    hide InArea, AreaAt;
    OnlyArea(a, m, p);
    OnlyArea(b, m, p);
  }

  /** Whatever query follows, a path of an area needs what the area needs. */
  lemma AreaNeeds(a: Area, m: Method, p: string, query: string)
    requires InArea(a, m, p) && Free(p, '?')
    ensures Resolve(m, p) == Need(a)
    ensures Resolve(m, p + ("?" + query)) == Need(a)
  {
    hide Decide, InArea, Need;
    TableExactly(m, p);
    assert p[..|p|] == p;
    FindUnique(p, '?', |p|);
    CutKeeps(p, "?" + query);
    FindUnique("?" + query, '?', 0);
    assert p + CutQuery("?" + query) == p;
  }

  /** No set of tabs opens a route that is for super admins alone. */
  lemma SuperRoutesClosed(tabs: set<string>, m: Method, p: string, query: string)
    requires SuperRoute(m, p) && Free(p, '?')
    ensures !AllowsAccess(false, tabs, Resolve(m, p))
    ensures !AllowsAccess(false, tabs, Resolve(m, p + ("?" + query)))
  {
    hide Resolve, SuperRoute;
    AreaNeeds(SuperOnly, m, p, query);
  }

  /** The gate as a whole: an admin who is not super gets through exactly with a tab that
      serves one of the tabs of the area the path lies in. */
  lemma OpensExactly(tabs: set<string>, m: Method, path: string)
    ensures AllowsAccess(false, tabs, Resolve(m, path))
       <==> exists a, t, i :: InArea(a, m, CutQuery(path)) && t in tabs && 0 <= i < |Wanted(Need(a))|
                              && Serves(t, Wanted(Need(a))[i])
  {
    hide AllowsAccess, Serves, InArea, Need, Decide, CutQuery;
    TableExactly(m, CutQuery(path));
    AccessExactly(false, tabs, Resolve(m, path));
    assert Wanted(Super) == [];
  }

  /** The two tests of the rules, in plain terms. */
  lemma PrefixExactly(p: string, stem: string)
    ensures StartsWith(p, stem) <==> exists rest :: p == stem + rest
  {
    if StartsWith(p, stem) {
      assert p == stem + p[|stem|..];
    }
  }
}
