/** The remote document store the pages read and write: the two market
    collections ("buttons" for the main markets, "button_play" for Starline),
    "add_money_requests", "withdrawal_requests" and "users". Each collection of
    requests or markets is held in the order the pages' queries return it. */
module Store {
  import Markets
  import Withdrawals
  import Wallet

  class DocumentStore {
    var buttons: seq<Markets.Market>
    var buttonPlay: seq<Markets.Market>
    var addMoneyRequests: seq<Wallet.WalletRequest>
    var withdrawalRequests: seq<Withdrawals.WithdrawalRequest>
    var users: map<string, Withdrawals.UserDoc>

    constructor(buttons: seq<Markets.Market>, buttonPlay: seq<Markets.Market>,
                addMoneyRequests: seq<Wallet.WalletRequest>,
                withdrawalRequests: seq<Withdrawals.WithdrawalRequest>,
                users: map<string, Withdrawals.UserDoc>)
      ensures this.buttons == buttons && this.buttonPlay == buttonPlay
      ensures this.addMoneyRequests == addMoneyRequests
      ensures this.withdrawalRequests == withdrawalRequests && this.users == users
    {
      this.buttons := buttons;
      this.buttonPlay := buttonPlay;
      this.addMoneyRequests := addMoneyRequests;
      this.withdrawalRequests := withdrawalRequests;
      this.users := users;
    }
  }
}
