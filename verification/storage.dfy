/**
 * The three collections of the bot's document store as values: the record
 * shapes, the lookup by `chat_id` (`find_one`, which returns the first
 * match), and the changes `/start` and a shared contact make to `users`.
 * The handlers in module Handlers apply these to the store they own.
 */
module Storage {
  import opened Wrappers

  /** A document of `users`; `chat_id` is the key the handlers look users up by. */
  datatype User = User(
    firstName: string,
    username: Option<string>,
    chatId: int,
    phoneNumber: Option<string>,
    referralPoints: int)

  /** A document of `chat_history`; the timestamp is the message's own date. */
  datatype ChatEntry = ChatEntry(chatId: int, userInput: string, botResponse: string, timestamp: int)

  /** The uploaded document as the messaging platform describes it. */
  datatype Document = Document(fileName: Option<string>, fileId: string, fileSize: Option<int>)

  /** A document of `files`. */
  datatype FileRecord = FileRecord(
    chatId: int,
    fileName: Option<string>,
    fileId: string,
    fileSize: Option<int>,
    timestamp: int)

  /** At most one user per `chat_id`. */
  predicate UniqueChatIds(users: seq<User>)
  {
    forall i, j :: 0 <= i < j < |users| ==> users[i].chatId != users[j].chatId
  }

  /** `find_one({"chat_id": chatId})`: the position of the first user with that chat id. */
  function FindUser(users: seq<User>, chatId: int): (r: Option<nat>)
    ensures r.Some? ==> r.value < |users| && users[r.value].chatId == chatId
    ensures r.Some? ==> forall j :: 0 <= j < r.value ==> users[j].chatId != chatId
    ensures r.None? ==> forall j :: 0 <= j < |users| ==> users[j].chatId != chatId
  {
    if users == [] then None
    else if users[0].chatId == chatId then Some(0)
    else
      match FindUser(users[1..], chatId)
      case None => None
      case Some(k) => Some(k + 1)
  }

  /** Under the uniqueness invariant the first match is the only match. */
  lemma UniqueMatch(users: seq<User>, chatId: int, j: nat)
    requires UniqueChatIds(users)
    requires j < |users| && users[j].chatId == chatId
    ensures FindUser(users, chatId) == Some(j)
  {
    assert FindUser(users, chatId).Some?;
  }

  /** The record `/start` inserts for a new chat: no phone number, no referral points. */
  function NewUser(chatId: int, firstName: string, username: Option<string>): (u: User)
    ensures u.chatId == chatId && u.firstName == firstName && u.username == username
    ensures u.phoneNumber.None? && u.referralPoints == 0
  {
    User(firstName, username, chatId, None, 0)
  }

  /** `users` after `/start`: unchanged for a known chat id, one new record appended otherwise. */
  function StartUsers(users: seq<User>, chatId: int, firstName: string, username: Option<string>): (after: seq<User>)
    ensures users <= after && |after| <= |users| + 1
    ensures |after| == |users| + 1 <==> FindUser(users, chatId).None?
    ensures forall j :: |users| <= j < |after| ==> after[j].chatId == chatId
  {
    if FindUser(users, chatId).Some? then users else users + [NewUser(chatId, firstName, username)]
  }

  /** After `/start` the chat id is registered, and a new record carries the defaults. */
  lemma StartRegisters(users: seq<User>, chatId: int, firstName: string, username: Option<string>)
    ensures var after := StartUsers(users, chatId, firstName, username);
      FindUser(after, chatId).Some? &&
      (FindUser(users, chatId).None? ==>
        after[FindUser(after, chatId).value] == User(firstName, username, chatId, None, 0))
  {
    var after := StartUsers(users, chatId, firstName, username);
    if FindUser(users, chatId).None? {
      assert after[|users|].chatId == chatId;
      assert FindUser(after, chatId).Some?;
    }
  }

  /** `/start` keeps at most one user per chat id. */
  lemma StartKeepsUnique(users: seq<User>, chatId: int, firstName: string, username: Option<string>)
    requires UniqueChatIds(users)
    ensures UniqueChatIds(StartUsers(users, chatId, firstName, username))
  {
    var after := StartUsers(users, chatId, firstName, username);
    if FindUser(users, chatId).None? {
      forall i, j | 0 <= i < j < |after| ensures after[i].chatId != after[j].chatId {
        if j == |users| {
          assert after[i] == users[i];
        } else {
          assert after[i] == users[i] && after[j] == users[j];
        }
      }
    }
  }

  /** A second `/start` for the same chat, whatever the sender's names, changes nothing. */
  lemma StartIdempotent(users: seq<User>, chatId: int, firstName: string, username: Option<string>,
                        firstName': string, username': Option<string>)
    ensures var once := StartUsers(users, chatId, firstName, username);
      StartUsers(once, chatId, firstName', username') == once
  {
    StartRegisters(users, chatId, firstName, username);
  }

  /** `update_one({"chat_id": chatId}, {"$set": {"phone_number": phone}})` on `users`. */
  function SetPhone(users: seq<User>, chatId: int, phone: string): (after: seq<User>)
    ensures |after| == |users|
    ensures forall j :: 0 <= j < |users| ==> after[j].chatId == users[j].chatId
  {
    match FindUser(users, chatId)
    case None => users
    case Some(i) => users[i := users[i].(phoneNumber := Some(phone))]
  }

  /**
   * Sharing a contact changes only the phone number of the matching user:
   * the count, every other record and every other field stay as they were,
   * and with no matching user nothing changes.
   */
  lemma SetPhoneFrame(users: seq<User>, chatId: int, phone: string)
    ensures var after := SetPhone(users, chatId, phone);
      |after| == |users| &&
      (FindUser(users, chatId).None? ==> after == users) &&
      forall j :: 0 <= j < |users| ==>
        if FindUser(users, chatId) == Some(j)
        then after[j] == users[j].(phoneNumber := Some(phone))
        else after[j] == users[j]
  {
  }

  /** Updating a phone number keeps at most one user per chat id. */
  lemma SetPhoneKeepsUnique(users: seq<User>, chatId: int, phone: string)
    requires UniqueChatIds(users)
    ensures UniqueChatIds(SetPhone(users, chatId, phone))
  {
    var after := SetPhone(users, chatId, phone);
    SetPhoneFrame(users, chatId, phone);
    forall i, j | 0 <= i < j < |after| ensures after[i].chatId != after[j].chatId {
      assert after[i].chatId == users[i].chatId && after[j].chatId == users[j].chatId;
    }
  }

  /** After the update, looking the chat id up finds the same user, now with the shared phone number. */
  lemma SetPhoneStores(users: seq<User>, chatId: int, phone: string)
    requires FindUser(users, chatId).Some?
    ensures var after := SetPhone(users, chatId, phone);
      FindUser(after, chatId) == FindUser(users, chatId) &&
      after[FindUser(after, chatId).value].phoneNumber == Some(phone)
  {
    var i := FindUser(users, chatId).value;
    var after := SetPhone(users, chatId, phone);
    SetPhoneFrame(users, chatId, phone);
    assert after[i].chatId == chatId;
  }

  /** Sharing the same number twice is the same as sharing it once. */
  lemma SetPhoneIdempotent(users: seq<User>, chatId: int, phone: string)
    ensures SetPhone(SetPhone(users, chatId, phone), chatId, phone) == SetPhone(users, chatId, phone)
  {
    if FindUser(users, chatId).Some? {
      SetPhoneStores(users, chatId, phone);
    }
  }
}
