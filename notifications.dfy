/** The notification hook of hooks/useNotifications.ts. The browser's clock, `toDateString`
    and the Notification API are not modelled: each check receives today's date key, the
    hour, the minute and the day of the month, and every notification the hook creates is
    appended to a log. */
module Notifications {
  import opened Wrappers

  const NotificationMessages: seq<string> := [
    "🎄✨ おはようございます。今日の素敵な言葉が届いていますよ。",
    "🎅🎁 サンタさんの準備が進んでいます。あなたのカードも到着しました。",
    "❄️☃️ 寒い朝ですね。心温まるメッセージを読んでみませんか？",
    "🕯️🌟 7時30分のお知らせです。新しい扉を開く時間ですよ。",
    "🦌🔔 リンリン！トナカイが今日のカードを運んできました。",
    "🍪🥛 クリスマスの足音が聞こえてきます。今日の一枚をどうぞ。",
    "🎁🧣 あなたへの特別なメッセージがポストに入っています。",
    "⭐👼 聖なる季節の輝きを、今日のカードから感じてください。",
    "🎼🎹 静かな朝に、あなたへの励ましの言葉を贈ります。",
    "🎄🕯️ 今日も一日頑張るあなたへ。サンタからの応援メッセージです。"
  ]

  const DailyTitle := "Xmas Whisper Calendar"
  const DailyIcon := "https://cdn-icons-png.flaticon.com/512/3697/3697263.png"
  const ConfirmationTitle := "🎄 Xmas Whisper"
  const ConfirmationBody := "通知設定が完了しました。毎朝7:30にお届けします。"
  const ConfirmationIcon := "/favicon.ico"

  /** `NotificationPermission`. */
  datatype Permission = Granted | Denied | Default

  datatype Notification = Notification(title: string, body: string, icon: string)

  /** What one check reads from `new Date()`: `toDateString()`, `getHours()`,
      `getMinutes()` and `getDate()`. */
  datatype Clock = Clock(today: string, hour: int, minute: int, dayOfMonth: nat)

  /** `(hours === 7 && minutes >= 30) || hours > 7`. */
  function IsAfterSevenThirty(hour: int, minute: int): (r: bool)
    ensures 0 <= minute < 60 ==> (r <==> hour * 60 + minute >= 450)
  {
    (hour == 7 && minute >= 30) || hour > 7
  }

  /** `day % NOTIFICATION_MESSAGES.length`, always a valid index of the list. */
  function MessageIndex(day: nat): (i: nat)
    ensures i < |NotificationMessages|
    ensures (day - i) % |NotificationMessages| == 0
  {
    day % |NotificationMessages|
  }

  function DailyNotification(day: nat): Notification
  {
    Notification(DailyTitle, NotificationMessages[MessageIndex(day)], DailyIcon)
  }

  /** The stored key and the notifications sent by one `checkAndNotify`. */
  datatype CheckResult = CheckResult(stored: Option<string>, sent: seq<Notification>)

  /** One `checkAndNotify` given the stored last-notified key. */
  function Check(last: Option<string>, c: Clock): (r: CheckResult)
    ensures |r.sent| <= 1
    ensures last == Some(c.today) ==> r == CheckResult(last, [])
    ensures |r.sent| == 1 <==> last != Some(c.today) && IsAfterSevenThirty(c.hour, c.minute)
    ensures |r.sent| == 1 ==> (&& r.stored == Some(c.today)
                               && r.sent[0] == DailyNotification(c.dayOfMonth)
                               && r.sent[0].body == NotificationMessages[c.dayOfMonth % 10])
    ensures |r.sent| == 0 ==> r.stored == last
  {
    if last == Some(c.today) then CheckResult(last, [])
    else if IsAfterSevenThirty(c.hour, c.minute) then
      CheckResult(Some(c.today), [DailyNotification(c.dayOfMonth)])
    else CheckResult(last, [])
  }

  /** Several checks in a row (the one on mount, then one per interval tick), each seeing
      the key the previous one stored. Each check sends at most one daily notification, and
      the stored key is the initial one or the date of some check. */
  function RunChecks(last: Option<string>, clocks: seq<Clock>): (r: CheckResult)
    ensures |r.sent| <= |clocks|
    ensures forall k :: 0 <= k < |r.sent| ==> r.sent[k].title == DailyTitle && r.sent[k].icon == DailyIcon
    ensures r.stored == last || exists i :: 0 <= i < |clocks| && r.stored == Some(clocks[i].today)
    decreases |clocks|
  {
    if clocks == [] then CheckResult(last, [])
    else
      var first := Check(last, clocks[0]);
      var rest := RunChecks(first.stored, clocks[1..]);
      assert forall i :: 1 <= i < |clocks| ==> clocks[i] == clocks[1..][i - 1];
      assert first.stored == last || first.stored == Some(clocks[0].today);
      CheckResult(rest.stored, first.sent + rest.sent)
  }

  ghost predicate AllOnDay(clocks: seq<Clock>, key: string)
  {
    forall i :: 0 <= i < |clocks| ==> clocks[i].today == key
  }

  ghost predicate SomeAfterSevenThirty(clocks: seq<Clock>)
  {
    exists i :: 0 <= i < |clocks| && IsAfterSevenThirty(clocks[i].hour, clocks[i].minute)
  }

  /** Once a day is notified, further checks on that day are no-ops. */
  lemma {:induction false} NotifiedDayIsQuiet(key: string, clocks: seq<Clock>)
    requires AllOnDay(clocks, key)
    ensures RunChecks(Some(key), clocks) == CheckResult(Some(key), [])
  {
    if clocks != [] {
      NotifiedDayIsQuiet(key, clocks[1..]);
    }
  }

  /** However many checks run on one date, they send one notification if the day was not
      yet notified and some check falls at or after 07:30, and none otherwise. */
  lemma {:induction false} AtMostOncePerDay(last: Option<string>, key: string, clocks: seq<Clock>)
    requires AllOnDay(clocks, key)
    ensures |RunChecks(last, clocks).sent|
         == if last != Some(key) && SomeAfterSevenThirty(clocks) then 1 else 0
  {
    if clocks != [] {
      var first := Check(last, clocks[0]);
      assert AllOnDay(clocks[1..], key);
      if last == Some(key) {
        NotifiedDayIsQuiet(key, clocks);
      } else if |first.sent| == 1 {
        NotifiedDayIsQuiet(key, clocks[1..]);
      } else {
        AtMostOncePerDay(last, key, clocks[1..]);
        assert SomeAfterSevenThirty(clocks) <==> SomeAfterSevenThirty(clocks[1..]) by {
          if SomeAfterSevenThirty(clocks) {
            var i :| 0 <= i < |clocks| && IsAfterSevenThirty(clocks[i].hour, clocks[i].minute);
            assert i != 0;
            assert clocks[1..][i - 1] == clocks[i];
          }
          if SomeAfterSevenThirty(clocks[1..]) {
            var i :| 0 <= i < |clocks[1..]| && IsAfterSevenThirty(clocks[1..][i].hour, clocks[1..][i].minute);
            assert clocks[i + 1] == clocks[1..][i];
          }
        }
      }
    }
  }

  /** The hook's state: the permission it holds, the stored `xmas_last_notification` key,
      and the log of notifications created so far. */
  class NotificationCenter {
    var permission: Permission
    var lastNotified: Option<string>
    var sent: seq<Notification>

    constructor (initial: Permission, stored: Option<string>)
      ensures permission == initial && lastNotified == stored && sent == []
    {
      permission := initial;
      lastNotified := stored;
      sent := [];
    }

    /** `requestPermission`: nothing happens without Notification support; otherwise the
        user's answer is stored, and a granted answer sends the confirmation. */
    method RequestPermission(supported: bool, answer: Permission)
      modifies this`permission, this`sent
      ensures !supported ==> permission == old(permission) && sent == old(sent)
      ensures supported ==> permission == answer
      ensures supported && answer == Granted
              ==> sent == old(sent) + [Notification(ConfirmationTitle, ConfirmationBody, ConfirmationIcon)]
      ensures supported && answer != Granted ==> sent == old(sent)
    {
      if !supported {
        return;
      }
      permission := answer;
      if answer == Granted {
        sent := sent + [Notification(ConfirmationTitle, ConfirmationBody, ConfirmationIcon)];
      }
    }

    /** `checkAndNotify`. */
    method CheckAndNotify(c: Clock)
      modifies this`lastNotified, this`sent
      ensures lastNotified == Check(old(lastNotified), c).stored
      ensures sent == old(sent) + Check(old(lastNotified), c).sent
    {
      if lastNotified == Some(c.today) {
        return;
      }
      if IsAfterSevenThirty(c.hour, c.minute) {
        sent := sent + [DailyNotification(c.dayOfMonth)];
        lastNotified := Some(c.today);
      }
    }

    /** One run of the effect's check (on mount or on the one-minute interval): it is
        installed only while permission is granted. */
    method Tick(c: Clock)
      modifies this`lastNotified, this`sent
      ensures permission != Granted ==> lastNotified == old(lastNotified) && sent == old(sent)
      ensures permission == Granted ==> (lastNotified == Check(old(lastNotified), c).stored
                                         && sent == old(sent) + Check(old(lastNotified), c).sent)
    {
      if permission != Granted {
        return;
      }
      CheckAndNotify(c);
    }
  }
}
