/** Admin authorization: the ordered route table, tab permissions and the permission
    column of rust/genesis-api/src/admin_auth.rs. */
module AdminRoutes {
  import opened Prelude
  import opened Text

  datatype Method = GET | POST | PUT | DELETE | OtherMethod

  datatype Requirement = Super | Tab(tab: string) | AnyOf(tabs: seq<string>)

  const USERS := "users"
  const REPORTS := "reports"
  const GAMES := "games"
  const PARTNERS := "partners"
  const SUPPORT := "support"
  const SECURITY := "security"
  const LOOTBOXES := "lootboxes"
  const BACKUP := "backup"
  const TRANSPARENCY := "transparency"
  const DASHBOARD := "dashboard"
  const METRICS := "metrics"
  const SETTINGS := "settings"
  const LABELS := "settings:labels"
  const PAGES := "settings:pages"
  const NEWS := "settings:news"
  const MONETIZATION := "settings:monetization"
  const RIGROOMS := "settings:rigrooms"
  const SHOPS := "shops"
  const HARDWARE := "shops:hardware"

  predicate StartsWith(s: string, prefix: string) {
    |prefix| <= |s| && forall i :: 0 <= i < |prefix| ==> s[i] == prefix[i]
  }

  predicate EndsWith(s: string, suffix: string) {
    |suffix| <= |s| && forall i :: 0 <= i < |suffix| ==> s[|s| - |suffix| + i] == suffix[i]
  }

  /** Equality of texts, put as a prefix test. */
  predicate Is(s: string, path: string)
    ensures Is(s, path) <==> s == path
  {
    |s| == |path| && StartsWith(s, path)
  }

  // ----- The route table in its order, cut into consecutive runs of rules -----

  /** `/api/admin/users/<id><suffix>` with a non-empty id free of slashes. */
  predicate UserSubRoute(p: string, suffix: string) {
    StartsWith(p, "/api/admin/users/")
    && var rest := p[17..];
       EndsWith(rest, suffix)
       && var id := rest[..|rest| - |suffix|]; id != [] && Free(id, '/')
  }

  /** `/api/game-state/<something>` other than the caller's own. */
  predicate GameStateByEmail(p: string) {
    StartsWith(p, "/api/game-state/") && |p| > 16 && !Is(p, "/api/game-state/me")
  }

  function ActorRules(m: Method, p: string): Option<Requirement> {
    if Is(p, "/api/admin/update-permissions") then
      Some(Super)
    else if Is(p, "/api/admin/impersonate") && m == POST then
      Some(Tab(USERS))
    else if Is(p, "/api/admin/bulk-delete")
      || Is(p, "/api/admin/recall-all-players-items")
      || Is(p, "/api/admin/restore")
      || Is(p, "/api/admin/promo-codes/bulk-delete") then
      Some(Super)
    else
      None
  }

  function WheelRules(m: Method, p: string): Option<Requirement> {
    if StartsWith(p, "/api/admin/wheel/") || Is(p, "/api/admin/reset-daily-boost") then
      Some(Tab(GAMES))
    else if (Is(p, "/api/mining-coins") || Is(p, "/api/mining-coins/set-active")) && m == POST then
      Some(Super)
    else if StartsWith(p, "/api/mining/coins") && m != GET then
      Some(Super)
    else
      None
  }

  function PartnerRules(m: Method, p: string): Option<Requirement> {
    if StartsWith(p, "/api/admin/partner-youtube")
      || StartsWith(p, "/api/admin/partner-videos")
      || StartsWith(p, "/api/admin/streamer-room-users") then
      Some(Tab(PARTNERS))
    else if Is(p, "/api/admin/upload-ad") then
      Some(AnyOf([PARTNERS, NEWS]))
    else if StartsWith(p, "/api/admin/support-tickets") || StartsWith(p, "/api/admin/support/") then
      Some(Tab(SUPPORT))
    else
      None
  }

  function SecurityRules(m: Method, p: string): Option<Requirement> {
    if m == POST
      && (Is(p, "/api/admin/security/bulk-tools/config")
          || Is(p, "/api/admin/security/inactive-block/apply")
          || Is(p, "/api/admin/security/force-password-reset/apply")) then
      Some(Super)
    else if Is(p, "/api/admin/device-fingerprints") || StartsWith(p, "/api/admin/security/") then
      Some(Tab(SECURITY))
    else
      None
  }

  function LootBoxRules(m: Method, p: string): Option<Requirement> {
    if StartsWith(p, "/api/admin/loot-boxes")
      || StartsWith(p, "/api/admin/user-boxes")
      || Is(p, "/api/admin/delete-user-box")
      || StartsWith(p, "/api/admin/loot-box-redemptions/") then
      Some(Tab(LOOTBOXES))
    else if Is(p, "/api/loot-boxes") && m == POST then
      Some(Tab(LOOTBOXES))
    else
      None
  }

  function BackupRules(m: Method, p: string): Option<Requirement> {
    if StartsWith(p, "/api/admin/backups")
      || Is(p, "/api/admin/backup")
      || StartsWith(p, "/api/admin/backup-settings")
      || Is(p, "/api/admin/recall-scan") then
      Some(Tab(BACKUP))
    else if StartsWith(p, "/api/admin/transparency") then
      Some(Tab(TRANSPARENCY))
    else
      None
  }

  function PageRules(m: Method, p: string): Option<Requirement> {
    if Is(p, "/api/admin/display-labels") then
      Some(Tab(LABELS))
    else if StartsWith(p, "/api/admin/ui-accent") then
      Some(Tab(PAGES))
    else if StartsWith(p, "/api/player-news/") then
      Some(Tab(NEWS))
    else
      None
  }

  function NewsRules(m: Method, p: string): Option<Requirement> {
    if StartsWith(p, "/api/admin/checkin-premium-policy")
      || StartsWith(p, "/api/admin/checkin-reward-policy") then
      Some(Tab(MONETIZATION))
    else if StartsWith(p, "/api/admin/announcements") || StartsWith(p, "/api/admin/in-app-announcements") then
      Some(Tab(NEWS))
    else if Is(p, "/api/news") || StartsWith(p, "/api/news/") then
      Some(Tab(NEWS))
    else
      None
  }

  function SeasonRules(m: Method, p: string): Option<Requirement> {
    if Is(p, "/api/news-fee") || Is(p, "/api/news-expire-days") then
      Some(Tab(NEWS))
    else if StartsWith(p, "/api/season-passes") || Is(p, "/api/season-pass/grant") then
      Some(Tab(MONETIZATION))
    else if StartsWith(p, "/api/admin/monetization-settings") then
      Some(Tab(MONETIZATION))
    else if Is(p, "/api/admin/quests") then
      Some(Tab(MONETIZATION))
    else if Is(p, "/api/monetization-settings") && m == POST then
      Some(Tab(MONETIZATION))
    else
      None
  }

  function CatalogRules(m: Method, p: string): Option<Requirement> {
    if StartsWith(p, "/api/admin/promo-codes") then
      Some(AnyOf([MONETIZATION, LOOTBOXES]))
    else if Is(p, "/api/access-levels") && m == POST then
      Some(Tab(SETTINGS))
    else if Is(p, "/api/rig-rooms") && m == POST then
      Some(Tab(RIGROOMS))
    else if Is(p, "/api/web3-settings") && m == POST then
      Some(Super)
    else if Is(p, "/api/wallet-labels") && m == GET then
      Some(Tab(REPORTS))
    else if Is(p, "/api/wallet-labels") && m == POST then
      Some(Super)
    else if Is(p, "/api/nfts/receive") && m == POST then
      Some(Super)
    else
      None
  }

  function ShopRules(m: Method, p: string): Option<Requirement> {
    if Is(p, "/api/admin-upgrades") || StartsWith(p, "/api/admin-upgrades/") then
      Some(Tab(HARDWARE))
    else if Is(p, "/api/upgrades") && m == POST then
      Some(Tab(HARDWARE))
    else if Is(p, "/api/admin/market/listings") then
      Some(Tab(SHOPS))
    else if Is(p, "/api/exchange-settings") && m == POST then
      Some(Super)
    else if Is(p, "/api/users") && m == GET then
      Some(Tab(USERS))
    else if Is(p, "/api/user") && m == PUT then
      Some(Tab(USERS))
    else
      None
  }

  function UserRules(m: Method, p: string): Option<Requirement> {
    if Is(p, "/api/admin/users/map") then
      Some(Tab(USERS))
    else if Is(p, "/api/users/block") && m == PUT then
      Some(Tab(USERS))
    else if StartsWith(p, "/api/user/") && m == DELETE then
      Some(Tab(USERS))
    else if StartsWith(p, "/api/admin/referral-models")
      || StartsWith(p, "/api/admin/access-level-referral-assignments")
      || Is(p, "/api/admin/bulk-gift")
      || StartsWith(p, "/api/admin/user-activity") then
      Some(Tab(USERS))
    else
      None
  }

  function UserAuditRules(m: Method, p: string): Option<Requirement> {
    if StartsWith(p, "/api/admin/referrals/") then
      Some(Super)
    else if m == GET
      && (UserSubRoute(p, "/inventory-audit")
          || UserSubRoute(p, "/session-snapshots")
          || UserSubRoute(p, "/account-trace")) then
      Some(Tab(USERS))
    else
      None
  }

  function UserEditRules(m: Method, p: string): Option<Requirement> {
    if Is(p, "/api/admin/update-coin-balance")
      || Is(p, "/api/admin/bulk-update-coin-balance")
      || Is(p, "/api/admin/ranking-exclusion")
      || Is(p, "/api/admin/ranking")
      || Is(p, "/api/admin/accounts-dormant-mining") then
      Some(Tab(USERS))
    else if m == POST && UserSubRoute(p, "/save-game-override") then
      Some(Tab(USERS))
    else if m == POST && UserSubRoute(p, "/grant-premium-checkin") then
      Some(Tab(USERS))
    else
      None
  }

  function UserHistoryRules(m: Method, p: string): Option<Requirement> {
    if m == PUT && UserSubRoute(p, "/rooms") then
      Some(Tab(USERS))
    else if m == GET && GameStateByEmail(p) then
      Some(Tab(USERS))
    else if m == GET && UserSubRoute(p, "/wallet-history") then
      Some(Tab(USERS))
    else if m == GET && UserSubRoute(p, "/reinvestment-history") then
      Some(Tab(USERS))
    else
      None
  }

  function SuspiciousEmailRules(m: Method, p: string): Option<Requirement> {
    if m == GET
      && (Is(p, "/api/admin/users/suspicious-emails")
          || Is(p, "/api/admin/users/suspicious-emails/export.csv")) then
      Some(Tab(USERS))
    else if m == POST && Is(p, "/api/admin/users/suspicious-emails/deactivate-filtered") then
      Some(Tab(USERS))
    else
      None
  }

  function MiningRules(m: Method, p: string): Option<Requirement> {
    if StartsWith(p, "/api/admin/economy-stats")
      || StartsWith(p, "/api/admin/mining-distribution/")
      || StartsWith(p, "/api/admin/mining-runtime-summary")
      || StartsWith(p, "/api/admin/etherscan/") then
      Some(Tab(REPORTS))
    else
      None
  }

  function PurchaseRules(m: Method, p: string): Option<Requirement> {
    if m == GET && Is(p, "/api/admin/reinvestment-history") then
      Some(Tab(REPORTS))
    else if m == GET && Is(p, "/api/admin/shop/checkouts") then
      Some(Tab(REPORTS))
    else if m == GET && Is(p, "/api/admin/purchases/report") then
      Some(Tab(REPORTS))
    else if StartsWith(p, "/api/admin/withdrawals") then
      Some(Super)
    else
      None
  }

  function EconomyRules(m: Method, p: string): Option<Requirement> {
    if Is(p, "/api/admin/economy-settings") && m == POST then
      Some(Super)
    else if Is(p, "/api/admin/economy/distribution-preview") && m == POST then
      Some(Super)
    else if Is(p, "/api/admin/mining-coins/sync-live-prices") && m == POST then
      Some(Super)
    else if Is(p, "/api/economy-settings") && m == POST then
      Some(Tab(REPORTS))
    else
      None
  }

  function SiteRules(m: Method, p: string): Option<Requirement> {
    if Is(p, "/api/admin/dashboard-stats") then
      Some(Tab(DASHBOARD))
    else if Is(p, "/api/admin/metrics") then
      Some(AnyOf([METRICS, DASHBOARD]))
    else if StartsWith(p, "/api/admin/guide") || StartsWith(p, "/api/admin/roadmap") then
      Some(Tab(PAGES))
    else if Is(p, "/api/admin/site-maintenance") && m == POST then
      Some(Tab(SETTINGS))
    else
      None
  }

  /** What `raw_path.split('?').next()` leaves. */
  function CutQuery(raw: string): string {
    raw[..Find(raw, '?')]
  }

  /** The runs, in table order. */
  datatype Run =
    | Actor | Wheel | Partner | Security | LootBox | Backup | Page | News | Season | Catalog | Shop | User
    | UserAudit | UserEdit | UserHistory | SuspiciousEmail | Mining | Purchase | Economy | Site

  function RunRules(run: Run, m: Method, p: string): Option<Requirement> {
    match run
    case Actor => ActorRules(m, p)
    case Wheel => WheelRules(m, p)
    case Partner => PartnerRules(m, p)
    case Security => SecurityRules(m, p)
    case LootBox => LootBoxRules(m, p)
    case Backup => BackupRules(m, p)
    case Page => PageRules(m, p)
    case News => NewsRules(m, p)
    case Season => SeasonRules(m, p)
    case Catalog => CatalogRules(m, p)
    case Shop => ShopRules(m, p)
    case User => UserRules(m, p)
    case UserAudit => UserAuditRules(m, p)
    case UserEdit => UserEditRules(m, p)
    case UserHistory => UserHistoryRules(m, p)
    case SuspiciousEmail => SuspiciousEmailRules(m, p)
    case Mining => MiningRules(m, p)
    case Purchase => PurchaseRules(m, p)
    case Economy => EconomyRules(m, p)
    case Site => SiteRules(m, p)
  }

  /** The first rule that applies; Super when none does. */
  function Decide(m: Method, p: string): Requirement {
    if RunRules(Actor, m, p).Some? then RunRules(Actor, m, p).value else
    if RunRules(Wheel, m, p).Some? then RunRules(Wheel, m, p).value else
    if RunRules(Partner, m, p).Some? then RunRules(Partner, m, p).value else
    if RunRules(Security, m, p).Some? then RunRules(Security, m, p).value else
    if RunRules(LootBox, m, p).Some? then RunRules(LootBox, m, p).value else
    if RunRules(Backup, m, p).Some? then RunRules(Backup, m, p).value else
    if RunRules(Page, m, p).Some? then RunRules(Page, m, p).value else
    if RunRules(News, m, p).Some? then RunRules(News, m, p).value else
    if RunRules(Season, m, p).Some? then RunRules(Season, m, p).value else
    if RunRules(Catalog, m, p).Some? then RunRules(Catalog, m, p).value else
    if RunRules(Shop, m, p).Some? then RunRules(Shop, m, p).value else
    if RunRules(User, m, p).Some? then RunRules(User, m, p).value else
    if RunRules(UserAudit, m, p).Some? then RunRules(UserAudit, m, p).value else
    if RunRules(UserEdit, m, p).Some? then RunRules(UserEdit, m, p).value else
    if RunRules(UserHistory, m, p).Some? then RunRules(UserHistory, m, p).value else
    if RunRules(SuspiciousEmail, m, p).Some? then RunRules(SuspiciousEmail, m, p).value else
    if RunRules(Mining, m, p).Some? then RunRules(Mining, m, p).value else
    if RunRules(Purchase, m, p).Some? then RunRules(Purchase, m, p).value else
    if RunRules(Economy, m, p).Some? then RunRules(Economy, m, p).value else
    if RunRules(Site, m, p).Some? then RunRules(Site, m, p).value else
    Super
  }

  function Resolve(m: Method, rawPath: string): Requirement {
    Decide(m, CutQuery(rawPath))
  }

  // ----- Which runs can speak about a path, by the two characters after `/api/admin/` -----

  /** A path of some length whose characters 5, 6 and 10 are those of `/api/admin/`, which
      is all that tells this stem from the other stems of the table. */
  predicate AdminMarks(p: string) {
    |p| > 12 && p[5] == 'a' && p[6] == 'd' && p[10] == '/'
  }

  function Head(p: string): (char, char)
    requires |p| > 12
  {
    (p[11], p[12])
  }

  /** The heads of the admin paths a run speaks about. */
  function RunHeads(run: Run): set<(char, char)> {
    match run
    case Actor => {('b', 'u'), ('i', 'm'), ('p', 'r'), ('r', 'e'), ('u', 'p')}
    case Wheel => {('r', 'e'), ('w', 'h')}
    case Partner => {('p', 'a'), ('s', 't'), ('s', 'u'), ('u', 'p')}
    case Security => {('d', 'e'), ('s', 'e')}
    case LootBox => {('d', 'e'), ('l', 'o'), ('u', 's')}
    case Backup => {('b', 'a'), ('r', 'e'), ('t', 'r')}
    case Page => {('d', 'i'), ('u', 'i')}
    case News => {('a', 'n'), ('c', 'h'), ('i', 'n')}
    case Season => {('m', 'o'), ('q', 'u')}
    case Catalog => {('p', 'r')}
    case Shop => {('m', 'a')}
    case User => {('a', 'c'), ('b', 'u'), ('r', 'e'), ('u', 's')}
    case UserAudit => {('r', 'e'), ('u', 's')}
    case UserEdit => {('a', 'c'), ('b', 'u'), ('r', 'a'), ('u', 'p'), ('u', 's')}
    case UserHistory => {('u', 's')}
    case SuspiciousEmail => {('u', 's')}
    case Mining => {('e', 'c'), ('e', 't'), ('m', 'i')}
    case Purchase => {('p', 'u'), ('r', 'e'), ('s', 'h'), ('w', 'i')}
    case Economy => {('e', 'c'), ('m', 'i')}
    case Site => {('d', 'a'), ('g', 'u'), ('m', 'e'), ('r', 'o'), ('s', 'i')}
  }

  lemma ActorHeads(m: Method, p: string)
    requires AdminMarks(p)
    ensures ActorRules(m, p).Some? ==> Head(p) in RunHeads(Actor)
  {
  }

  lemma WheelHeads(m: Method, p: string)
    requires AdminMarks(p)
    ensures WheelRules(m, p).Some? ==> Head(p) in RunHeads(Wheel)
  {
  }

  lemma PartnerHeads(m: Method, p: string)
    requires AdminMarks(p)
    ensures PartnerRules(m, p).Some? ==> Head(p) in RunHeads(Partner)
  {
  }

  lemma SecurityHeads(m: Method, p: string)
    requires AdminMarks(p)
    ensures SecurityRules(m, p).Some? ==> Head(p) in RunHeads(Security)
  {
  }

  lemma LootBoxHeads(m: Method, p: string)
    requires AdminMarks(p)
    ensures LootBoxRules(m, p).Some? ==> Head(p) in RunHeads(LootBox)
  {
  }

  lemma BackupHeads(m: Method, p: string)
    requires AdminMarks(p)
    ensures BackupRules(m, p).Some? ==> Head(p) in RunHeads(Backup)
  {
  }

  lemma PageHeads(m: Method, p: string)
    requires AdminMarks(p)
    ensures PageRules(m, p).Some? ==> Head(p) in RunHeads(Page)
  {
  }

  lemma NewsHeads(m: Method, p: string)
    requires AdminMarks(p)
    ensures NewsRules(m, p).Some? ==> Head(p) in RunHeads(News)
  {
  }

  lemma SeasonHeads(m: Method, p: string)
    requires AdminMarks(p)
    ensures SeasonRules(m, p).Some? ==> Head(p) in RunHeads(Season)
  {
    assert !Is(p, "/api/news-fee") && !Is(p, "/api/news-expire-days");
  }

  lemma CatalogHeads(m: Method, p: string)
    requires AdminMarks(p)
    ensures CatalogRules(m, p).Some? ==> Head(p) in RunHeads(Catalog)
  {
  }

  lemma ShopHeads(m: Method, p: string)
    requires AdminMarks(p)
    ensures ShopRules(m, p).Some? ==> Head(p) in RunHeads(Shop)
  {
  }

  lemma UserHeads(m: Method, p: string)
    requires AdminMarks(p)
    ensures UserRules(m, p).Some? ==> Head(p) in RunHeads(User)
  {
  }

  lemma UserAuditHeads(m: Method, p: string)
    requires AdminMarks(p)
    ensures UserAuditRules(m, p).Some? ==> Head(p) in RunHeads(UserAudit)
  {
  }

  lemma UserEditHeads(m: Method, p: string)
    requires AdminMarks(p)
    ensures UserEditRules(m, p).Some? ==> Head(p) in RunHeads(UserEdit)
  {
  }

  lemma UserHistoryHeads(m: Method, p: string)
    requires AdminMarks(p)
    ensures UserHistoryRules(m, p).Some? ==> Head(p) in RunHeads(UserHistory)
  {
  }

  lemma SuspiciousEmailHeads(m: Method, p: string)
    requires AdminMarks(p)
    ensures SuspiciousEmailRules(m, p).Some? ==> Head(p) in RunHeads(SuspiciousEmail)
  {
  }

  lemma MiningHeads(m: Method, p: string)
    requires AdminMarks(p)
    ensures MiningRules(m, p).Some? ==> Head(p) in RunHeads(Mining)
  {
  }

  lemma PurchaseHeads(m: Method, p: string)
    requires AdminMarks(p)
    ensures PurchaseRules(m, p).Some? ==> Head(p) in RunHeads(Purchase)
  {
  }

  lemma EconomyHeads(m: Method, p: string)
    requires AdminMarks(p)
    ensures EconomyRules(m, p).Some? ==> Head(p) in RunHeads(Economy)
  {
  }

  lemma SiteHeads(m: Method, p: string)
    requires AdminMarks(p)
    ensures SiteRules(m, p).Some? ==> Head(p) in RunHeads(Site)
  {
  }

  /** A run speaks about an admin path only if it knows the path's head. */
  lemma OnlyByHead(m: Method, p: string)
    requires AdminMarks(p)
    ensures forall run :: RunRules(run, m, p).Some? ==> Head(p) in RunHeads(run)
  {
    forall run
      ensures RunRules(run, m, p).Some? ==> Head(p) in RunHeads(run)
    {
      HeadOfRun(run, m, p);
    }
  }

  lemma HeadOfRun(run: Run, m: Method, p: string)
    requires AdminMarks(p)
    ensures RunRules(run, m, p).Some? ==> Head(p) in RunHeads(run)
  {
    hide ActorRules, WheelRules, PartnerRules, SecurityRules, LootBoxRules, BackupRules, PageRules,
         NewsRules, SeasonRules, CatalogRules, ShopRules, UserRules, UserAuditRules, UserEditRules,
         UserHistoryRules, SuspiciousEmailRules, MiningRules, PurchaseRules, EconomyRules, SiteRules, RunHeads;
    match run
    case Actor => ActorHeads(m, p);
    case Wheel => WheelHeads(m, p);
    case Partner => PartnerHeads(m, p);
    case Security => SecurityHeads(m, p);
    case LootBox => LootBoxHeads(m, p);
    case Backup => BackupHeads(m, p);
    case Page => PageHeads(m, p);
    case News => NewsHeads(m, p);
    case Season => SeasonHeads(m, p);
    case Catalog => CatalogHeads(m, p);
    case Shop => ShopHeads(m, p);
    case User => UserHeads(m, p);
    case UserAudit => UserAuditHeads(m, p);
    case UserEdit => UserEditHeads(m, p);
    case UserHistory => UserHistoryHeads(m, p);
    case SuspiciousEmail => SuspiciousEmailHeads(m, p);
    case Mining => MiningHeads(m, p);
    case Purchase => PurchaseHeads(m, p);
    case Economy => EconomyHeads(m, p);
    case Site => SiteHeads(m, p);
  }

  // ----- Families of paths that one handler gate answers for -----

  /** Routes whose handlers pass the gate a fixed stand-in path instead of the path asked for. */
  datatype Family =
    MiningDistribution
    | Backups
    | LootBoxes
    | Redemptions
    | PartnerChannels
    | PartnerVideos
    | StreamerRooms
    | SupportTickets
    | Support
    | Announcements
    | InAppAnnouncements
    | Blacklist
    | PrizeWheel
    | Transparency
    | Referrals

  function Stem(f: Family): string {
    match f
    case MiningDistribution => "/api/admin/mining-distribution/"
    case Backups => "/api/admin/backups"
    case LootBoxes => "/api/admin/loot-boxes"
    case Redemptions => "/api/admin/loot-box-redemptions/"
    case PartnerChannels => "/api/admin/partner-youtube"
    case PartnerVideos => "/api/admin/partner-videos"
    case StreamerRooms => "/api/admin/streamer-room-users"
    case SupportTickets => "/api/admin/support-tickets"
    case Support => "/api/admin/support/"
    case Announcements => "/api/admin/announcements"
    case InAppAnnouncements => "/api/admin/in-app-announcements"
    case Blacklist => "/api/admin/security/blacklist"
    case PrizeWheel => "/api/admin/wheel/"
    case Transparency => "/api/admin/transparency"
    case Referrals => "/api/admin/referrals/"
  }

  function Owner(f: Family): Requirement {
    match f
    case MiningDistribution => Tab(REPORTS)
    case Backups => Tab(BACKUP)
    case LootBoxes | Redemptions => Tab(LOOTBOXES)
    case PartnerChannels | PartnerVideos | StreamerRooms => Tab(PARTNERS)
    case SupportTickets | Support => Tab(SUPPORT)
    case Announcements | InAppAnnouncements => Tab(NEWS)
    case Blacklist => Tab(SECURITY)
    case PrizeWheel => Tab(GAMES)
    case Transparency => Tab(TRANSPARENCY)
    case Referrals => Super
  }

  lemma MiningDistributionOwn(m: Method, p: string)
    requires StartsWith(p, "/api/admin/mining-distribution/")
    ensures AdminMarks(p) && Head(p) == ('m', 'i')
    ensures RunRules(Mining, m, p) == Some(Tab(REPORTS))
  {
  }

  lemma BackupsOwn(m: Method, p: string)
    requires StartsWith(p, "/api/admin/backups")
    ensures AdminMarks(p) && Head(p) == ('b', 'a')
    ensures RunRules(Backup, m, p) == Some(Tab(BACKUP))
  {
  }

  lemma LootBoxesOwn(m: Method, p: string)
    requires StartsWith(p, "/api/admin/loot-boxes")
    ensures AdminMarks(p) && Head(p) == ('l', 'o')
    ensures RunRules(LootBox, m, p) == Some(Tab(LOOTBOXES))
  {
  }

  lemma RedemptionsOwn(m: Method, p: string)
    requires StartsWith(p, "/api/admin/loot-box-redemptions/")
    ensures AdminMarks(p) && Head(p) == ('l', 'o')
    ensures RunRules(LootBox, m, p) == Some(Tab(LOOTBOXES))
  {
  }

  lemma PartnerChannelsOwn(m: Method, p: string)
    requires StartsWith(p, "/api/admin/partner-youtube")
    ensures AdminMarks(p) && Head(p) == ('p', 'a')
    ensures RunRules(Partner, m, p) == Some(Tab(PARTNERS))
  {
  }

  lemma PartnerVideosOwn(m: Method, p: string)
    requires StartsWith(p, "/api/admin/partner-videos")
    ensures AdminMarks(p) && Head(p) == ('p', 'a')
    ensures RunRules(Partner, m, p) == Some(Tab(PARTNERS))
  {
  }

  lemma StreamerRoomsOwn(m: Method, p: string)
    requires StartsWith(p, "/api/admin/streamer-room-users")
    ensures AdminMarks(p) && Head(p) == ('s', 't')
    ensures RunRules(Partner, m, p) == Some(Tab(PARTNERS))
  {
  }

  lemma SupportTicketsOwn(m: Method, p: string)
    requires StartsWith(p, "/api/admin/support-tickets")
    ensures AdminMarks(p) && Head(p) == ('s', 'u')
    ensures RunRules(Partner, m, p) == Some(Tab(SUPPORT))
  {
  }

  lemma SupportOwn(m: Method, p: string)
    requires StartsWith(p, "/api/admin/support/")
    ensures AdminMarks(p) && Head(p) == ('s', 'u')
    ensures RunRules(Partner, m, p) == Some(Tab(SUPPORT))
  {
  }

  lemma AnnouncementsOwn(m: Method, p: string)
    requires StartsWith(p, "/api/admin/announcements")
    ensures AdminMarks(p) && Head(p) == ('a', 'n')
    ensures RunRules(News, m, p) == Some(Tab(NEWS))
  {
  }

  lemma InAppAnnouncementsOwn(m: Method, p: string)
    requires StartsWith(p, "/api/admin/in-app-announcements")
    ensures AdminMarks(p) && Head(p) == ('i', 'n')
    ensures RunRules(News, m, p) == Some(Tab(NEWS))
  {
  }

  lemma BlacklistOwn(m: Method, p: string)
    requires StartsWith(p, "/api/admin/security/blacklist")
    ensures AdminMarks(p) && Head(p) == ('s', 'e')
    ensures RunRules(Security, m, p) == Some(Tab(SECURITY))
  {
    assert p[20] == 'b' && p[21] == 'l';
  }

  lemma PrizeWheelOwn(m: Method, p: string)
    requires StartsWith(p, "/api/admin/wheel/")
    ensures AdminMarks(p) && Head(p) == ('w', 'h')
    ensures RunRules(Wheel, m, p) == Some(Tab(GAMES))
  {
  }

  lemma TransparencyOwn(m: Method, p: string)
    requires StartsWith(p, "/api/admin/transparency")
    ensures AdminMarks(p) && Head(p) == ('t', 'r')
    ensures RunRules(Backup, m, p) == Some(Tab(TRANSPARENCY))
  {
  }

  lemma ReferralsOwn(m: Method, p: string)
    requires StartsWith(p, "/api/admin/referrals/")
    ensures AdminMarks(p) && Head(p) == ('r', 'e')
    ensures RunRules(UserAudit, m, p) == Some(Super)
  {
  }

  /** The other runs that know `re` want some other word. */
  lemma ReferralsNotActor(m: Method, p: string)
    requires AdminMarks(p) && |p| > 19 && p[11] == 'r' && p[13] == 'f'
    ensures RunRules(Actor, m, p).None?
  {
  }

  lemma ReferralsNotWheel(m: Method, p: string)
    requires AdminMarks(p) && |p| > 19 && p[11] == 'r' && p[13] == 'f'
    ensures RunRules(Wheel, m, p).None?
  {
  }

  lemma ReferralsNotBackup(m: Method, p: string)
    requires AdminMarks(p) && |p| > 19 && p[11] == 'r' && p[13] == 'f'
    ensures RunRules(Backup, m, p).None?
  {
  }

  lemma NotReferralModels(m: Method, p: string)
    requires AdminMarks(p) && |p| > 19 && p[11] == 'r' && p[19] == 's'
    ensures RunRules(User, m, p).None?
  {
  }

  lemma ReferralsShape(p: string)
    requires StartsWith(p, "/api/admin/referrals/")
    ensures |p| > 19 && p[13] == 'f' && p[19] == 's'
  {
  }

  predicate PartnerOrNews(f: Family) {
    f.PartnerChannels? || f.PartnerVideos? || f.StreamerRooms? || f.SupportTickets? || f.Support?
    || f.Announcements? || f.InAppAnnouncements?
  }

  lemma PartnerOrNewsDecided(f: Family, m: Method, p: string)
    requires PartnerOrNews(f) && StartsWith(p, Stem(f))
    ensures Decide(m, p) == Owner(f)
  {
    hide RunRules, StartsWith, AdminMarks;
    match f {
      case PartnerChannels => PartnerChannelsOwn(m, p);
      case PartnerVideos => PartnerVideosOwn(m, p);
      case StreamerRooms => StreamerRoomsOwn(m, p);
      case SupportTickets => SupportTicketsOwn(m, p);
      case Support => SupportOwn(m, p);
      case Announcements => AnnouncementsOwn(m, p);
      case InAppAnnouncements => InAppAnnouncementsOwn(m, p);
    }
    OnlyByHead(m, p);
  }

  lemma ReferralsDecided(m: Method, p: string)
    requires StartsWith(p, Stem(Referrals))
    ensures Decide(m, p) == Super
  {
    hide RunRules, StartsWith, AdminMarks;
    ReferralsOwn(m, p);
    ReferralsShape(p);
    ReferralsNotActor(m, p);
    ReferralsNotWheel(m, p);
    ReferralsNotBackup(m, p);
    NotReferralModels(m, p);
    OnlyByHead(m, p);
  }

  lemma GoodsDecided(f: Family, m: Method, p: string)
    requires f.MiningDistribution? || f.Backups? || f.LootBoxes? || f.Redemptions?
    requires StartsWith(p, Stem(f))
    ensures Decide(m, p) == Owner(f)
  {
    hide RunRules, StartsWith, AdminMarks;
    match f {
      case MiningDistribution => MiningDistributionOwn(m, p);
      case Backups => BackupsOwn(m, p);
      case LootBoxes => LootBoxesOwn(m, p);
      case Redemptions => RedemptionsOwn(m, p);
    }
    OnlyByHead(m, p);
  }

  lemma RestDecided(f: Family, m: Method, p: string)
    requires f.Blacklist? || f.PrizeWheel? || f.Transparency?
    requires StartsWith(p, Stem(f))
    ensures Decide(m, p) == Owner(f)
  {
    hide RunRules, StartsWith, AdminMarks;
    match f {
      case Blacklist => BlacklistOwn(m, p);
      case PrizeWheel => PrizeWheelOwn(m, p);
      case Transparency => TransparencyOwn(m, p);
    }
    OnlyByHead(m, p);
  }

  lemma FamilyDecided(f: Family, m: Method, p: string)
    requires StartsWith(p, Stem(f))
    ensures Decide(m, p) == Owner(f)
  {
    hide Decide, StartsWith;
    if PartnerOrNews(f) {
      PartnerOrNewsDecided(f, m, p);
    } else if f == Referrals {
      ReferralsDecided(m, p);
    } else if f.Blacklist? || f.PrizeWheel? || f.Transparency? {
      RestDecided(f, m, p);
    } else {
      GoodsDecided(f, m, p);
    }
  }

  lemma CutKeeps(stem: string, x: string)
    requires '?' !in stem
    ensures CutQuery(stem + x) == stem + CutQuery(x)
  {
    var i := Find(x, '?');
    assert (stem + x)[..|stem| + i] == stem + x[..i];
    FindUnique(stem + x, '?', |stem| + i);
  }

  lemma PartnerOrNewsStemFree(f: Family)
    requires PartnerOrNews(f)
    ensures '?' !in Stem(f)
  {
  }

  lemma OtherStemFree(f: Family)
    requires !PartnerOrNews(f)
    ensures '?' !in Stem(f)
  {
  }

  /** Whatever method, parameter or query a request carries, its path has the requirement of
      its family, so the stand-in a handler names decides as the path asked for would. */
  lemma StandIn(f: Family, m: Method, x: string)
    ensures Resolve(m, Stem(f) + x) == Owner(f)
  {
    hide StartsWith, Stem;
    if PartnerOrNews(f) {
      PartnerOrNewsStemFree(f);
    } else {
      OtherStemFree(f);
    }
    CutKeeps(Stem(f), x);
    StartsWithPlus(Stem(f), CutQuery(x));
    FamilyDecided(f, m, CutQuery(Stem(f) + x));
  }

  lemma StartsWithPlus(a: string, b: string)
    ensures StartsWith(a + b, a)
  {
  }

  /** Some run speaks about admin paths that begin with these two characters. */
  ghost predicate KnownHead(head: (char, char)) {
    exists run :: head in RunHeads(run)
  }

  lemma UnknownHeadDecided(m: Method, p: string)
    requires AdminMarks(p) && !KnownHead(Head(p))
    ensures Decide(m, p) == Super
  {
    hide RunRules, RunHeads, StartsWith, AdminMarks;
    OnlyByHead(m, p);
  }

  const ADMIN_STEM := "/api/admin/"

  lemma AdminStem()
    ensures |ADMIN_STEM| == 11 && '?' !in ADMIN_STEM
    ensures ADMIN_STEM[5] == 'a' && ADMIN_STEM[6] == 'd' && ADMIN_STEM[10] == '/'
  {
  }

  /** Deny by default: an admin path whose first word starts like no rule's takes a super
      admin, whatever the method and whatever follows. */
  lemma UnknownIsSuper(m: Method, a: char, b: char, x: string)
    requires a != '?' && b != '?' && !KnownHead((a, b))
    ensures Resolve(m, ADMIN_STEM + [a, b] + x) == Super
  {
    hide Decide, KnownHead, AdminMarks, ADMIN_STEM;
    AdminStem();
    CutKeeps(ADMIN_STEM + [a, b], x);
    UnknownPathShape(ADMIN_STEM, a, b, CutQuery(x));
    UnknownHeadDecided(m, ADMIN_STEM + [a, b] + CutQuery(x));
  }

  lemma UnknownPathShape(stem: string, a: char, b: char, rest: string)
    requires |stem| == 11 && stem[5] == 'a' && stem[6] == 'd' && stem[10] == '/'
    ensures AdminMarks(stem + [a, b] + rest) && Head(stem + [a, b] + rest) == (a, b)
  {
  }

  // ----- Paths the user handlers build around a raw id -----

  datatype UserPage =
    InventoryAudit
    | SessionSnapshots
    | AccountTrace
    | SaveGameOverride
    | GrantPremiumCheckin
    | Rooms
    | WalletHistory
    | ReinvestmentHistory

  function Verb(u: UserPage): Method {
    match u
    case SaveGameOverride | GrantPremiumCheckin => POST
    case Rooms => PUT
    case _ => GET
  }

  function Suffix(u: UserPage): string {
    match u
    case InventoryAudit => "/inventory-audit"
    case SessionSnapshots => "/session-snapshots"
    case AccountTrace => "/account-trace"
    case SaveGameOverride => "/save-game-override"
    case GrantPremiumCheckin => "/grant-premium-checkin"
    case Rooms => "/rooms"
    case WalletHistory => "/wallet-history"
    case ReinvestmentHistory => "/reinvestment-history"
  }

  const USER_STEM := "/api/admin/users/"

  lemma UserStem()
    ensures |USER_STEM| == 17 && '?' !in USER_STEM
  {
  }

  lemma UsersShape(p: string)
    requires StartsWith(p, USER_STEM)
    ensures AdminMarks(p) && Head(p) == ('u', 's') && |p| > 16 && p[15] == 's'
  {
  }

  lemma UsersNotBoxes(m: Method, p: string)
    requires AdminMarks(p) && |p| > 16 && p[11] == 'u' && p[15] == 's'
    ensures RunRules(LootBox, m, p).None?
  {
  }

  lemma UsersNotReferrals(m: Method, p: string)
    requires AdminMarks(p) && p[11] == 'u'
    ensures RunRules(UserAudit, m, p).Some? ==> RunRules(UserAudit, m, p).value == Tab(USERS)
  {
  }

  lemma UserRunsNeedUsers(m: Method, p: string)
    ensures RunRules(User, m, p).Some? ==> RunRules(User, m, p).value == Tab(USERS)
    ensures RunRules(UserEdit, m, p).Some? ==> RunRules(UserEdit, m, p).value == Tab(USERS)
  {
    hide Is, StartsWith, UserSubRoute, GameStateByEmail;
  }

  lemma UserHistoryRunsNeedUsers(m: Method, p: string)
    ensures RunRules(UserHistory, m, p).Some? ==> RunRules(UserHistory, m, p).value == Tab(USERS)
    ensures RunRules(SuspiciousEmail, m, p).Some? ==> RunRules(SuspiciousEmail, m, p).value == Tab(USERS)
  {
    hide Is, StartsWith, UserSubRoute, GameStateByEmail;
  }

  ghost predicate UserRunSpeaks(m: Method, p: string) {
    RunRules(User, m, p).Some? || RunRules(UserAudit, m, p).Some? || RunRules(UserEdit, m, p).Some?
    || RunRules(UserHistory, m, p).Some? || RunRules(SuspiciousEmail, m, p).Some?
  }

  lemma UsersDecided(m: Method, p: string)
    requires StartsWith(p, USER_STEM)
    ensures Decide(m, p) == if UserRunSpeaks(m, p) then Tab(USERS) else Super
  {
    hide RunRules, StartsWith, AdminMarks;
    UsersShape(p);
    OnlyByHead(m, p);
    UsersNotBoxes(m, p);
    UsersNotReferrals(m, p);
    UserRunsNeedUsers(m, p);
    UserHistoryRunsNeedUsers(m, p);
  }

  lemma SubRouteOf(id: string, suffix: string)
    requires id != [] && Free(id, '/')
    ensures UserSubRoute(USER_STEM + (id + suffix), suffix)
  {
    UserStem();
    StartsWithPlus(USER_STEM, id + suffix);
    assert (USER_STEM + (id + suffix))[17..] == id + suffix;
    assert (id + suffix)[..|id|] == id;
  }

  lemma SuffixFree(u: UserPage)
    ensures '?' !in Suffix(u)
  {
  }

  /** Every path under a user id asks for the users tab or for a super admin, never for
      another tab. */
  lemma UserPaths(m: Method, x: string)
    ensures Resolve(m, USER_STEM + x) in {Tab(USERS), Super}
  {
    UserStem();
    CutKeeps(USER_STEM, x);
    StartsWithPlus(USER_STEM, CutQuery(x));
    hide StartsWith, UserRunSpeaks, Decide;
    UsersDecided(m, CutQuery(USER_STEM + x));
  }

  /** The paths under `/api/admin/users/` that some rule opens to the users tab. */
  ghost predicate UserPath(m: Method, p: string) {
    Is(p, "/api/admin/users/map")
    || (m == GET && (Is(p, "/api/admin/users/suspicious-emails")
                     || Is(p, "/api/admin/users/suspicious-emails/export.csv")))
    || (m == POST && Is(p, "/api/admin/users/suspicious-emails/deactivate-filtered"))
    || PagePath(m, p)
  }

  ghost predicate PagePath(m: Method, p: string) {
    exists u :: Verb(u) == m && UserSubRoute(p, Suffix(u))
  }

  lemma UserRunExactly(m: Method, p: string)
    requires StartsWith(p, USER_STEM)
    ensures UserRules(m, p).Some? <==> Is(p, "/api/admin/users/map")
  {
    UsersShape(p);
    assert p[13] == 'e' && p[15] == 's';
    hide USER_STEM;
  }

  lemma AuditRunExactly(m: Method, p: string)
    requires AdminMarks(p) && p[11] == 'u'
    ensures UserAuditRules(m, p).Some? <==>
              m == GET && (UserSubRoute(p, Suffix(InventoryAudit)) || UserSubRoute(p, Suffix(SessionSnapshots))
                           || UserSubRoute(p, Suffix(AccountTrace)))
  {
    assert !StartsWith(p, "/api/admin/referrals/");
    hide UserSubRoute;
  }

  lemma EditRunExactly(m: Method, p: string)
    requires AdminMarks(p) && |p| > 16 && p[11] == 'u' && p[12] == 's'
    ensures UserEditRules(m, p).Some? <==>
              m == POST && (UserSubRoute(p, Suffix(SaveGameOverride)) || UserSubRoute(p, Suffix(GrantPremiumCheckin)))
  {
    hide UserSubRoute;
  }

  lemma HistoryRunExactly(m: Method, p: string)
    requires AdminMarks(p)
    ensures UserHistoryRules(m, p).Some? <==>
              (m == PUT && UserSubRoute(p, Suffix(Rooms)))
              || (m == GET && (UserSubRoute(p, Suffix(WalletHistory)) || UserSubRoute(p, Suffix(ReinvestmentHistory))))
  {
    assert !GameStateByEmail(p);
    hide UserSubRoute, GameStateByEmail;
  }

  lemma PageCases(m: Method, p: string)
    ensures PagePath(m, p) <==>
              (m == GET && (UserSubRoute(p, Suffix(InventoryAudit)) || UserSubRoute(p, Suffix(SessionSnapshots))
                            || UserSubRoute(p, Suffix(AccountTrace))))
              || (m == POST && (UserSubRoute(p, Suffix(SaveGameOverride))
                                || UserSubRoute(p, Suffix(GrantPremiumCheckin))))
              || (m == PUT && UserSubRoute(p, Suffix(Rooms)))
              || (m == GET && (UserSubRoute(p, Suffix(WalletHistory)) || UserSubRoute(p, Suffix(ReinvestmentHistory))))
  {
    hide Suffix, UserSubRoute;
    assert Verb(InventoryAudit) == GET && Verb(SaveGameOverride) == POST && Verb(Rooms) == PUT;
  }

  lemma SuspiciousExactly(m: Method, p: string)
    ensures SuspiciousEmailRules(m, p).Some? <==>
              (m == GET && (Is(p, "/api/admin/users/suspicious-emails")
                            || Is(p, "/api/admin/users/suspicious-emails/export.csv")))
              || (m == POST && Is(p, "/api/admin/users/suspicious-emails/deactivate-filtered"))
  {
    hide Is;
  }

  lemma RunSpeaksExactly(m: Method, p: string)
    ensures UserRunSpeaks(m, p) <==>
              UserRules(m, p).Some? || UserAuditRules(m, p).Some? || UserEditRules(m, p).Some?
              || UserHistoryRules(m, p).Some? || SuspiciousEmailRules(m, p).Some?
  {
    hide UserRules, UserAuditRules, UserEditRules, UserHistoryRules, SuspiciousEmailRules;
  }

  lemma SpeaksExactly(m: Method, p: string)
    requires StartsWith(p, USER_STEM)
    ensures UserRunSpeaks(m, p) <==> UserPath(m, p)
  {
    UsersShape(p);
    hide Is, StartsWith, UserSubRoute, AdminMarks, Suffix, PagePath, UserRunSpeaks,
         UserRules, UserAuditRules, UserEditRules, UserHistoryRules, SuspiciousEmailRules;
    UserRunExactly(m, p);
    AuditRunExactly(m, p);
    EditRunExactly(m, p);
    HistoryRunExactly(m, p);
    SuspiciousExactly(m, p);
    PageCases(m, p);
    RunSpeaksExactly(m, p);
  }

  /** Through the whole table, a path under a user id needs the users tab exactly when one
      of these rules matches it, and a super admin otherwise. */
  lemma UsersExactly(m: Method, p: string)
    requires StartsWith(p, USER_STEM)
    ensures Decide(m, p) == if UserPath(m, p) then Tab(USERS) else Super
  {
    UsersDecided(m, p);
    SpeaksExactly(m, p);
    hide Decide, UserRunSpeaks, UserPath;
  }

  function Word(u: UserPage): string {
    match u
    case InventoryAudit => "inventory-audit"
    case SessionSnapshots => "session-snapshots"
    case AccountTrace => "account-trace"
    case SaveGameOverride => "save-game-override"
    case GrantPremiumCheckin => "grant-premium-checkin"
    case Rooms => "rooms"
    case WalletHistory => "wallet-history"
    case ReinvestmentHistory => "reinvestment-history"
  }

  lemma WordFree(u: UserPage)
    ensures '/' !in Word(u)
  {
  }

  lemma AuditSuffix(u: UserPage)
    requires u.InventoryAudit? || u.SessionSnapshots? || u.AccountTrace?
    ensures Suffix(u) == ['/'] + Word(u)
  {
  }

  lemma EditSuffix(u: UserPage)
    requires u.SaveGameOverride? || u.GrantPremiumCheckin?
    ensures Suffix(u) == ['/'] + Word(u)
  {
  }

  lemma HistorySuffix(u: UserPage)
    requires u.Rooms? || u.WalletHistory? || u.ReinvestmentHistory?
    ensures Suffix(u) == ['/'] + Word(u)
  {
  }

  lemma SuffixShape(u: UserPage)
    ensures Suffix(u) == ['/'] + Word(u) && '/' !in Word(u)
  {
    hide Suffix, Word;
    WordFree(u);
    match u
    case InventoryAudit | SessionSnapshots | AccountTrace => AuditSuffix(u);
    case SaveGameOverride | GrantPremiumCheckin => EditSuffix(u);
    case Rooms | WalletHistory | ReinvestmentHistory => HistorySuffix(u);
  }

  lemma SuffixEnd(u: UserPage)
    ensures |Suffix(u)| >= 6
    ensures var s := Suffix(u); var n := |s|;
            (s[n - 2], s[n - 1]) !in {('a', 'p'), ('l', 's'), ('s', 'v'), ('e', 'd')}
  {
  }

  lemma NotSpecial(u: UserPage, id: string)
    ensures var p := USER_STEM + (id + Suffix(u));
            && !Is(p, "/api/admin/users/map")
            && !Is(p, "/api/admin/users/suspicious-emails") && !Is(p, "/api/admin/users/suspicious-emails/export.csv")
            && !Is(p, "/api/admin/users/suspicious-emails/deactivate-filtered")
  {
    SuffixEnd(u);
    hide Suffix, USER_STEM, StartsWith;
    var p := USER_STEM + (id + Suffix(u));
    assert p[|p| - 1] == Suffix(u)[|Suffix(u)| - 1] && p[|p| - 2] == Suffix(u)[|Suffix(u)| - 2];
  }

  /** Whatever page suffix a path ends in, the last slash tells where its id ends. */
  lemma OneIdPerPath(u: UserPage, v: UserPage, id: string)
    requires UserSubRoute(USER_STEM + (id + Suffix(u)), Suffix(v))
    ensures id != [] && Free(id, '/')
  {
    UserStem();
    SuffixShape(u);
    SuffixShape(v);
    hide Suffix, Word, USER_STEM, StartsWith;
    var rest := id + Suffix(u);
    assert (USER_STEM + rest)[17..] == rest;
    var other := rest[..|rest| - |Suffix(v)|];
    assert rest == other + Suffix(v);
    LastSlash(id, Word(u), other, Word(v));
  }

  lemma LastSlash(a: string, b: string, a': string, b': string)
    requires '/' !in b && '/' !in b' && a + (['/'] + b) == a' + (['/'] + b')
    ensures a == a'
  {
    var s, s' := a + (['/'] + b), a' + (['/'] + b');
    assert s[|a|] == '/' && s[|a'|] == '/';
    assert forall i :: |a| < i < |s| ==> s[i] == b[i - |a| - 1];
    assert forall i :: |a'| < i < |s| ==> s[i] == b'[i - |a'| - 1];
    assert s[..|a|] == a && s'[..|a'|] == a';
  }

  lemma PlainPageExactly(u: UserPage, id: string)
    ensures UserPath(Verb(u), USER_STEM + (id + Suffix(u))) <==> id != [] && Free(id, '/')
  {
    var p := USER_STEM + (id + Suffix(u));
    hide Suffix, StartsWith, USER_STEM, UserSubRoute, Is;
    NotSpecial(u, id);
    if v :| Verb(v) == Verb(u) && UserSubRoute(p, Suffix(v)) {
      OneIdPerPath(u, v, id);
    }
    if id != [] && Free(id, '/') {
      SubRouteOf(id, Suffix(u));
    }
  }

  /** Exactly what a user page needs, for every raw id, as a handler writes it into the path.
      Without a question mark: the users tab for a non-empty id free of slashes, a super admin
      for any other. With one, the rest is cut off, and what precedes it decides by itself. */
  lemma UserPageExactly(u: UserPage, id: string)
    ensures Resolve(Verb(u), USER_STEM + (id + Suffix(u))) ==
            if (if Free(id, '?') then id != [] && Free(id, '/') else UserPath(Verb(u), USER_STEM + CutQuery(id)))
            then Tab(USERS) else Super
  {
    UserStem();
    SuffixFree(u);
    hide Suffix, StartsWith, Decide, UserPath, UserSubRoute, Is;
    var x := id + Suffix(u);
    CutKeeps(USER_STEM, x);
    StartsWithPlus(USER_STEM, CutQuery(x));
    UsersExactly(Verb(u), USER_STEM + CutQuery(x));
    if Free(id, '?') {
      assert x[..|x|] == x;
      FindUnique(x, '?', |x|);
      PlainPageExactly(u, id);
    } else {
      var i := Find(id, '?');
      assert id[..|id|] == id;
      assert x[..i] == id[..i];
      FindUnique(x, '?', i);
    }
  }

  lemma UserPageOwned(u: UserPage, id: string)
    requires id != [] && Free(id, '/') && Free(id, '?')
    ensures Resolve(Verb(u), USER_STEM + (id + Suffix(u))) == Tab(USERS)
  {
    UserPageExactly(u, id);
    hide Resolve;
  }

  // ----- Tabs -----

  /** `admin_tab_allows`: the tab itself, its parent, or any child of a tab without a colon. */
  predicate TabAllows(tabs: set<string>, required: string) {
    var colon := Find(required, ':');
    required in tabs
    || (0 < colon < |required| && required[..colon] in tabs)
    || (Free(required, ':') && exists t :: t in tabs && StartsWith(t, required + ":"))
  }

  /** `allows_admin_route_access`. */
  predicate AllowsAccess(isSuperAdmin: bool, tabs: set<string>, rule: Requirement) {
    isSuperAdmin
    || match rule
       case Super => false
       case Tab(tab) => TabAllows(tabs, tab)
       case AnyOf(list) => exists i :: 0 <= i < |list| && TabAllows(tabs, list[i])
  }

  /** The part of a tab name before its first colon. */
  function Parent(tab: string): string {
    tab[..Find(tab, ':')]
  }

  /** One tab serves another when they are the same, or share the parent and one of the two
      is that whole parent. */
  predicate Serves(held: string, required: string) {
    held == required
    || (Parent(held) == Parent(required) && (Free(required, ':') || (Free(held, ':') && held != "")))
  }

  lemma ParentOfWhole(tab: string)
    requires Free(tab, ':')
    ensures Parent(tab) == tab
  {
    assert tab[..|tab|] == tab;
    FindUnique(tab, ':', |tab|);
  }

  lemma ChildByParent(t: string, parent: string)
    requires Free(parent, ':')
    ensures StartsWith(t, parent + ":") <==> Parent(t) == parent && t != parent
  {
    ParentOfWhole(parent);
    if StartsWith(t, parent + ":") {
      assert t[|parent|] == (parent + ":")[|parent|];
      assert forall i :: 0 <= i < |parent| ==> t[i] == (parent + ":")[i];
      assert t[..|parent|] == parent;
      FindUnique(t, ':', |parent|);
    }
  }

  lemma ServesOne(t: string, required: string)
    ensures TabAllows({t}, required) <==> Serves(t, required)
  {
    var colon := Find(required, ':');
    if Free(required, ':') {
      ParentOfWhole(required);
      ChildByParent(t, required);
      assert t in {t};
    } else {
      assert Parent(required) == required[..colon];
      if Free(t, ':') {
        ParentOfWhole(t);
      }
    }
  }

  /** A set of tabs allows what one of its tabs serves. */
  lemma TabAllowsExactly(tabs: set<string>, required: string)
    ensures TabAllows(tabs, required) <==> exists t :: t in tabs && Serves(t, required)
  {
    forall t | t in tabs ensures TabAllows({t}, required) <==> Serves(t, required) {
      ServesOne(t, required);
    }
    if TabAllows(tabs, required) && required !in tabs && Free(required, ':') {
      var t :| t in tabs && StartsWith(t, required + ":");
      assert t in {t};
    }
  }

  /** The tabs any one of which opens a route to an actor who is not super. */
  function Wanted(rule: Requirement): seq<string> {
    match rule
    case Super => []
    case Tab(tab) => [tab]
    case AnyOf(list) => list
  }

  lemma AccessExactly(isSuperAdmin: bool, tabs: set<string>, rule: Requirement)
    ensures AllowsAccess(isSuperAdmin, tabs, rule)
       <==> isSuperAdmin || exists t, i :: t in tabs && 0 <= i < |Wanted(rule)| && Serves(t, Wanted(rule)[i])
  {
    hide TabAllows, Serves;
    forall i | 0 <= i < |Wanted(rule)|
      ensures TabAllows(tabs, Wanted(rule)[i]) <==> exists t :: t in tabs && Serves(t, Wanted(rule)[i])
    {
      TabAllowsExactly(tabs, Wanted(rule)[i]);
    }
    match rule {
      case Super =>
      case Tab(tab) =>
        assert Wanted(rule)[0] == tab;
      case AnyOf(list) =>
        assert Wanted(rule) == list;
    }
  }

  /** Two grants together open exactly what one or the other opens: more tabs never close a
      route, and what a pair opens one of the two already opened. */
  lemma AccessOfUnion(a: set<string>, b: set<string>, m: Method, path: string)
    ensures AllowsAccess(false, a + b, Resolve(m, path))
       <==> AllowsAccess(false, a, Resolve(m, path)) || AllowsAccess(false, b, Resolve(m, path))
  {
    hide *;
    AccessExactly(false, a, Resolve(m, path));
    AccessExactly(false, b, Resolve(m, path));
    AccessExactly(false, a + b, Resolve(m, path));
  }

  lemma MoreTabsNeverLess(isSuperAdmin: bool, few: set<string>, many: set<string>, m: Method, path: string)
    requires few <= many && AllowsAccess(isSuperAdmin, few, Resolve(m, path))
    ensures AllowsAccess(isSuperAdmin, many, Resolve(m, path))
  {
    hide *;
    AccessExactly(isSuperAdmin, few, Resolve(m, path));
    AccessExactly(isSuperAdmin, many, Resolve(m, path));
  }

  lemma NoTabsNoRoute(m: Method, path: string)
    ensures !AllowsAccess(false, {}, Resolve(m, path))
  {
    hide *;
    AccessExactly(false, {}, Resolve(m, path));
  }

  // ----- The permission column -----

  /** A JSON value; a number is the double it is read as. */
  datatype Json =
    Null
    | Bool(flag: bool)
    | Number(value: real)
    | Text(text: string)
    | List(items: seq<Json>)
    | Object(entries: seq<(string, Json)>)

  predicate Enabled(v: Json) {
    v == Bool(true) || (v.Number? && v.value == 1.0)
  }

  /** The value the column holds, which older rows keep as JSON text. */
  function ColumnValue(raw: Json, parse: string -> Option<Json>): Json {
    if !raw.Text? then raw
    else if Trim(raw.text) == "" then Null
    else
      var parsed := parse(Trim(raw.text));
      if parsed.Some? then parsed.value else Null
  }

  ghost predicate ItemLists(item: Json, tab: string) {
    item.Text? && tab != "" && Trim(item.text) == tab
  }

  ghost predicate EntryLists(entry: (string, Json), tab: string) {
    entry.0 == tab && Enabled(entry.1)
  }

  /** Does this value grant this tab? A list names it, around which blanks do not count; an
      object flags it with true or 1, letter for letter. */
  ghost predicate Lists(value: Json, tab: string) {
    match value
    case List(items) => exists i :: 0 <= i < |items| && ItemLists(items[i], tab)
    case Object(entries) => exists i :: 0 <= i < |entries| && EntryLists(entries[i], tab)
    case _ => false
  }

  /** `permission_tab_set_from_db_json`, over a JSON reader given as a parameter. */
  method PermissionTabSet(raw: Json, parse: string -> Option<Json>) returns (tabs: set<string>)
    ensures forall t :: t in tabs <==> Lists(ColumnValue(raw, parse), t)
  {
    hide Trim;
    tabs := {};
    var value := raw;
    if raw.Text? {
      var text := Trim(raw.text);
      if text == "" {
        return;
      }
      var parsed := parse(text);
      if parsed.None? {
        return;
      }
      value := parsed.value;
    }
    match value {
      case List(items) =>
        for i := 0 to |items|
          invariant forall t :: t in tabs <==> exists j :: 0 <= j < i && ItemLists(items[j], t)
        {
          ghost var before := tabs;
          if items[i].Text? {
            var name := Trim(items[i].text);
            if name != "" {
              tabs := tabs + {name};
            }
          }
          assert forall t :: t in tabs <==> t in before || ItemLists(items[i], t);
        }
      case Object(entries) =>
        for i := 0 to |entries|
          invariant forall t :: t in tabs <==> exists j :: 0 <= j < i && EntryLists(entries[j], t)
        {
          ghost var before := tabs;
          if Enabled(entries[i].1) {
            tabs := tabs + {entries[i].0};
          }
          assert forall t :: t in tabs <==> t in before || EntryLists(entries[i], t);
        }
      case _ =>
    }
  }

  /** What a list or an object in the column names, put on its items and entries. */
  ghost predicate Grants(value: Json, tab: string) {
    (value.List? && tab != "" && exists i :: 0 <= i < |value.items|
                                             && value.items[i].Text? && Trim(value.items[i].text) == tab)
    || (value.Object? && exists i :: 0 <= i < |value.entries| && value.entries[i].0 == tab
                                     && value.entries[i].1 in {Bool(true), Number(1.0)})
  }

  /** A column of JSON text grants what the value written in it grants, and nothing when it is
      blank or no JSON; any other column grants what it lists or flags. A text inside the text
      is not read again. */
  lemma ColumnGrants(raw: Json, parse: string -> Option<Json>, t: string)
    ensures Lists(ColumnValue(raw, parse), t)
       <==> if raw.Text? then Trim(raw.text) != "" && parse(Trim(raw.text)).Some?
                              && Grants(parse(Trim(raw.text)).value, t)
            else Grants(raw, t)
  {
    hide Trim;
    var value := ColumnValue(raw, parse);
    assert Lists(value, t) <==> Grants(value, t) by {
      if value.List? && Grants(value, t) {
        var i :| 0 <= i < |value.items| && value.items[i].Text? && Trim(value.items[i].text) == t;
        assert ItemLists(value.items[i], t);
      } else if value.Object? && Grants(value, t) {
        var i :| 0 <= i < |value.entries| && value.entries[i].0 == t
                 && value.entries[i].1 in {Bool(true), Number(1.0)};
        assert EntryLists(value.entries[i], t);
      }
    }
  }

  function AsList(names: seq<string>): Json {
    List(seq(|names|, i requires 0 <= i < |names| => Text(names[i])))
  }

  function AsFlags(names: seq<string>): Json {
    Object(seq(|names|, i requires 0 <= i < |names| => (names[i], Bool(true))))
  }

  lemma ListedNames(names: seq<string>, t: string)
    ensures Lists(AsList(names), t) <==> t != "" && exists i :: 0 <= i < |names| && Trim(names[i]) == t
  {
    hide Trim;
    var items := AsList(names).items;
    if t != "" && exists i :: 0 <= i < |names| && Trim(names[i]) == t {
      var i :| 0 <= i < |names| && Trim(names[i]) == t;
      assert ItemLists(items[i], t);
    }
  }

  lemma FlaggedNames(names: seq<string>, t: string)
    ensures Lists(AsFlags(names), t) <==> t in names
  {
    var entries := AsFlags(names).entries;
    if t in names {
      var i :| 0 <= i < |names| && names[i] == t;
      assert EntryLists(entries[i], t);
    }
  }

  /** A list of names and the object flagging the same names grant the same tabs exactly when
      no name is empty or has blanks around it. */
  lemma TwoForms(names: seq<string>)
    ensures (forall t :: Lists(AsList(names), t) <==> Lists(AsFlags(names), t))
       <==> (forall n :: n in names ==> n != "" && IsTrimmed(n))
  {
    hide AsList, AsFlags, Lists;
    forall t
      ensures Lists(AsList(names), t) <==> t != "" && exists i :: 0 <= i < |names| && Trim(names[i]) == t
      ensures Lists(AsFlags(names), t) <==> t in names
    {
      ListedNames(names, t);
      FlaggedNames(names, t);
    }
    if forall n :: n in names ==> n != "" && IsTrimmed(n) {
      forall t ensures Lists(AsList(names), t) <==> Lists(AsFlags(names), t) {
        if t in names {
          var i :| 0 <= i < |names| && names[i] == t;
          assert Trim(names[i]) == t;
        }
      }
    } else {
      var n :| n in names && !(n != "" && IsTrimmed(n));
      assert Lists(AsFlags(names), n) && !Lists(AsList(names), n);
    }
  }
}
